/** The Replica's TCP handler after its full synchronisation: what it reads is always the next
    command of the log, the ONLINE line at its own offset, or a proper prefix of one of them. */
module ClusterCatchUp {
  import opened Bytes
  import opened Codec
  import opened Store
  import opened Aof
  import opened Snapshot
  import opened Rdma
  import opened ControlLines
  import opened Replication
  import opened Cluster
  import opened ClusterInvariant
  import opened ClusterNetwork
  import opened ClusterPrimary

  /** The bytes between two neighbouring boundaries are one encoded command. */
  lemma CommandAt(base: Base, log: Log, stores: Stores, aof: ByteString, k: nat)
    requires LogOk(base, log, stores, aof) && k < |log|
    ensures Loggable(log[k])
    ensures Off(base, log, k + 1) == Off(base, log, k) + |EncodeCommand(log[k])| <= |aof|
    ensures aof[Off(base, log, k)..Off(base, log, k + 1)] == EncodeCommand(log[k])
  {
    hide EncodeLog, EncodeCommand, ApplyAll;
    var e := EncodeCommand(log[k]);
    EncodeLogSnoc(log[..k], log[k]);
    assert log[..k + 1] == log[..k] + [log[k]];
    EncodeLogSplit(log, k + 1);
    var rest := EncodeLog(log[k + 1..]);
    assert aof == (base.aof + EncodeLog(log[..k])) + e + rest;
    MiddlePart(base.aof + EncodeLog(log[..k]), e, rest);
  }

  lemma {:induction false} OffStrict(base: Base, log: Log, i: nat, j: nat)
    requires i < j <= |log|
    ensures Off(base, log, i) < Off(base, log, j)
  {
    hide EncodeLog, EncodeCommand;
    OffMonotone(base, log, i + 1, j);
    EncodeLogSnoc(log[..i], log[i]);
    assert log[..i + 1] == log[..i] + [log[i]];
    EncodedNonEmpty(log[i]);
  }

  /** The Replica is still before the announced ONLINE line. */
  predicate BeforeOnline(x: Session, online: bool) {
    !online && x.online.Some?
  }

  /** While no ONLINE line comes first, the next command does, whole or cut. */
  lemma PendingFront(base: Base, log: Log, stores: Stores, aof: ByteString, x: Session, k: nat, online: bool)
    requires LogOk(base, log, stores, aof) && PositionsOk(base, log, aof, x) && k < |log|
    requires Off(base, log, k) <= x.sent
    requires BeforeOnline(x, online) ==> k < x.online.value
    ensures var e, pending := EncodeCommand(log[k]), Pending(base, log, aof, x, k, online);
            if Off(base, log, k + 1) <= x.sent then pending == e + Pending(base, log, aof, x, k + 1, online)
            else |pending| < |e| && pending == e[..|pending|]
    ensures BeforeOnline(x, online) ==>
              k + 1 <= x.online.value && Off(base, log, k + 1) <= Off(base, log, x.online.value)
  {
    hide EncodeCommand, OnlineLine, Off, LogOk;
    CommandAt(base, log, stores, aof, k);
    var from, next := Off(base, log, k), Off(base, log, k + 1);
    if BeforeOnline(x, online) {
      OffMonotone(base, log, k + 1, x.online.value);
      JoinSlices(aof, from, next, Off(base, log, x.online.value));
    } else if next <= x.sent {
      JoinSlices(aof, from, next, x.sent);
    } else {
      assert aof[from..x.sent] == aof[from..next][..x.sent - from];
    }
  }

  lemma PrefixOf(input: ByteString, inFlight: ByteString, e: ByteString, rest: ByteString)
    requires input + inFlight == e + rest
    ensures |input| >= |e| ==> input == e + input[|e|..] && input[|e|..] + inFlight == rest
    ensures |input| < |e| ==> input == e[..|input|]
  {
    if |input| >= |e| {
      assert input[..|e|] == (input + inFlight)[..|e|] == e;
      assert input[|e|..] + inFlight == (input + inFlight)[|e|..] == rest;
    } else {
      assert input == (input + inFlight)[..|input|] == (e + rest)[..|input|];
    }
  }

  lemma StartsWithStar(fields: Fields, n: nat)
    requires 0 < n <= |EncodeCommand(fields)|
    ensures EncodeCommand(fields)[..n][0] == STAR
  {
    assert EncodeCommand(fields)[0] == STAR;
  }

  /** The next command of the log is at the front of the input. */
  predicate CommandFirst(s: System, x: Session)
    requires s.applied <= |s.log|
  {
    && s.applied < |s.log| && Off(s.base, s.log, s.applied) <= x.sent
    && (BeforeOnline(x, s.r.phase.Online?) ==> s.applied < x.online.value)
  }

  /** What `ReplicaReadsTcp` and the invariant say about a Replica past its full synchronisation. */
  predicate Reading(s: System, x: Session) {
    && ReplicaReadsTcp(s) && s.r.input != [] && (s.r.phase.CatchUp? || s.r.phase.Online?)
    && s.r.syncId.Some? && s.r.syncId.value in s.sessions && s.sessions[s.r.syncId.value] == x
    && PositionsOk(s.base, s.log, s.p.aof, x) && s.applied <= |s.log|
    && LogOk(s.base, s.log, s.p.stores, s.p.aof)
    && CopyOk(s.base, s.log, s.p.aof, x, s.r, s.applied)
    && StreamOk(s.base, s.log, s.p.aof, x, s.r, s.applied, s.toReplica[s.r.conn.value])
  }

  lemma ReadingHolds(s: System)
    requires Inv(s) && ReplicaReadsTcp(s) && s.r.input != [] && (s.r.phase.CatchUp? || s.r.phase.Online?)
    ensures s.r.syncId.Some? && s.r.syncId.value in s.sessions && Reading(s, s.sessions[s.r.syncId.value])
  {
    hide LogOk, SessionsOk, PrimaryOk, StreamOk, LinkOk, NamesOk, OrderOk, ReplicaSyncOk, PositionsOk;
  }

  /** Otherwise the ONLINE line is, and it names the Replica's own AOF length. */
  lemma FrontOfInput(s: System, x: Session)
    requires Reading(s, x) && !CommandFirst(s, x)
    ensures !s.r.phase.Online? && x.online == Some(s.applied)
    ensures s.r.input + s.toReplica[s.r.conn.value]
            == OnlineLine(|s.r.aof|) + s.p.aof[|s.r.aof|..x.sent]
  {
    hide OnlineLine, StoresAt, Off, LogOk;
    OnlineNext(s, x);
    assert s.p.aof[|s.r.aof|..|s.r.aof|] == [];
  }

  lemma OnlineNext(s: System, x: Session)
    requires Reading(s, x) && !CommandFirst(s, x)
    ensures !s.r.phase.Online? && x.online == Some(s.applied)
  {
    hide OnlineLine, StoresAt, Off, LogOk, CopyOk;
    OffAt(s.base, s.log, s.p.stores, s.p.aof);
    if s.applied == |s.log| {
      assert s.p.aof[|s.p.aof|..|s.p.aof|] == [];
    }
  }

  // ---------------------------------------------------------------- the handler

  /** A complete command at the front: it succeeds, and the Replica's copy moves on by it. */
  lemma ApplyNext(s: System, x: Session)
    requires Reading(s, x) && CommandFirst(s, x)
    requires |s.r.input| >= |EncodeCommand(s.log[s.applied])|
    ensures var e := EncodeCommand(s.log[s.applied]);
            && Off(s.base, s.log, s.applied + 1) == |s.r.aof| + |e| <= INT64_MAX
            && Apply(s.r.stores, s.log[s.applied]).Some?
            && var r' := s.r.(stores := Apply(s.r.stores, s.log[s.applied]).value, aof := s.r.aof + e,
                              offset := |s.r.aof + e|);
               && UpstreamProtocol(s.r, s.r.input, s.nextLink) == Handled(r', [], |e|)
               && CopyOk(s.base, s.log, s.p.aof, x, r'.(input := s.r.input[|e|..]), s.applied + 1)
               && StreamOk(s.base, s.log, s.p.aof, x, r'.(input := s.r.input[|e|..]), s.applied + 1,
                           s.toReplica[s.r.conn.value])
  {
    hide EncodeCommand, EncodeLog, Apply, ApplyAll, OnlineLine, ParseCommand;
    var k, c := s.applied, s.r.conn.value;
    var e := EncodeCommand(s.log[k]);
    CommandAt(s.base, s.log, s.p.stores, s.p.aof, k);
    ApplyAllNext(s.base.stores, s.log, k);
    PendingFront(s.base, s.log, s.p.stores, s.p.aof, x, k, s.r.phase.Online?);
    PrefixOf(s.r.input, s.toReplica[c], e, Pending(s.base, s.log, s.p.aof, x, k + 1, s.r.phase.Online?));
    RoundTrip(s.log[k], s.r.input[|e|..], 3, SIZE_MAX);
    EncodedNonEmpty(s.log[k]);
    StartsWithStar(s.log[k], |e|);
    assert e[..|e|] == e && s.r.input[0] == e[0];
    hide Off, LogOk, Pending;
    JoinSlices(s.p.aof, Off(s.base, s.log, x.start), Off(s.base, s.log, k), Off(s.base, s.log, k + 1));
    assert (s.r.aof + e)[Off(s.base, s.log, x.start)..] == s.r.aof[Off(s.base, s.log, x.start)..] + e;
  }

  /** An incomplete command: the handler waits for more input. */
  lemma WaitForCommand(s: System, x: Session)
    requires Reading(s, x) && CommandFirst(s, x)
    requires |s.r.input| < |EncodeCommand(s.log[s.applied])|
    ensures UpstreamProtocol(s.r, s.r.input, s.nextLink) == Handled(s.r, [], 0)
  {
    hide EncodeCommand, EncodeLog, Apply, ApplyAll, OnlineLine, ParseCommand;
    var k, c := s.applied, s.r.conn.value;
    var e := EncodeCommand(s.log[k]);
    CommandAt(s.base, s.log, s.p.stores, s.p.aof, k);
    PendingFront(s.base, s.log, s.p.stores, s.p.aof, x, k, s.r.phase.Online?);
    if Off(s.base, s.log, k + 1) <= x.sent {
      PrefixOf(s.r.input, s.toReplica[c], e, Pending(s.base, s.log, s.p.aof, x, k + 1, s.r.phase.Online?));
    } else {
      var pending := Pending(s.base, s.log, s.p.aof, x, k, s.r.phase.Online?);
      assert s.r.input == pending[..|s.r.input|] == e[..|s.r.input|];
    }
    EncodedPrefixWaits(s.log[k], |s.r.input|, 3, SIZE_MAX);
    StartsWithStar(s.log[k], |s.r.input|);
  }

  lemma TextLines(offset: nat)
    ensures var f := OnlineFrame(offset); NoLf(f) && f != [] && f[0] != STAR && ParseOnline(f) == Some(offset)
    ensures OnlineLine(offset) == OnlineFrame(offset) + CRLF
  {
    OnlineRoundTrip(offset);
  }

  /** The ONLINE line, whole or cut. */
  lemma HandleOnline(s: System, x: Session)
    requires Reading(s, x) && !CommandFirst(s, x)
    ensures var line := OnlineLine(|s.r.aof|);
            if |s.r.input| < |line| then UpstreamProtocol(s.r, s.r.input, s.nextLink) == Handled(s.r, [], 0)
            else
              var r' := s.r.(offset := |s.r.aof|, phase := Online);
              && UpstreamProtocol(s.r, s.r.input, s.nextLink) == Handled(r', [], |line|)
              && CopyOk(s.base, s.log, s.p.aof, x, r'.(input := s.r.input[|line|..]), s.applied)
              && StreamOk(s.base, s.log, s.p.aof, x, r'.(input := s.r.input[|line|..]), s.applied,
                          s.toReplica[s.r.conn.value])
  {
    hide EncodeLog, ParseOnline, OnlineFrame, StoresAt, FirstLine;
    FrontOfInput(s, x);
    OnlineInputOk(s, x);
    hide Off, OnlineLine;
  }

  lemma OnlineInputOk(s: System, x: Session)
    requires Reading(s, x) && !CommandFirst(s, x)
    requires s.r.input + s.toReplica[s.r.conn.value] == OnlineLine(|s.r.aof|) + s.p.aof[|s.r.aof|..x.sent]
    ensures var frame := OnlineFrame(|s.r.aof|);
            && OnlineLine(|s.r.aof|) == frame + CRLF && ParseOnline(frame) == Some(|s.r.aof|) && frame != []
            && |s.r.aof| <= INT64_MAX && s.r.input[0] != STAR
            && (|s.r.input| < |frame + CRLF| ==> FirstLine(s.r.input) == NoLine)
            && (|s.r.input| >= |frame + CRLF| ==>
                  && FirstLine(s.r.input) == Line(frame, |frame + CRLF|)
                  && s.r.input[|frame + CRLF|..] + s.toReplica[s.r.conn.value] == s.p.aof[|s.r.aof|..x.sent])
  {
    hide EncodeLog, ParseOnline, OnlineFrame, StoresAt, FirstLine;
    var n := |s.r.aof|;
    var frame := OnlineFrame(n);
    var line := OnlineLine(n);
    TextLines(n);
    PrefixOf(s.r.input, s.toReplica[s.r.conn.value], line, s.p.aof[n..x.sent]);
    if |s.r.input| < |line| {
      LinePending(frame, |s.r.input|);
    } else {
      LineFound(frame, s.r.input[|line|..]);
    }
  }

  /** The handler of a Replica that has its snapshot never refuses what arrives: no replicated
      command fails, and the offset comparison of the ONLINE line never does either. */
  lemma ReplicatedInputAccepted(s: System)
    requires Inv(s) && ReplicaReadsTcp(s) && s.r.input != [] && (s.r.phase.CatchUp? || s.r.phase.Online?)
    ensures UpstreamProtocol(s.r, s.r.input, s.nextLink).Handled?
  {
    hide Inv, Reading, CommandFirst, UpstreamProtocol, EncodeCommand, OnlineLine;
    ReadingHolds(s);
    var x := s.sessions[s.r.syncId.value];
    ReadingApplied(s, x);
    if CommandFirst(s, x) {
      CommandFirstInLog(s, x);
      if |s.r.input| < |EncodeCommand(s.log[s.applied])| {
        WaitForCommand(s, x);
      } else {
        ApplyNext(s, x);
      }
    } else {
      HandleOnline(s, x);
    }
  }

  lemma ReadingApplied(s: System, x: Session)
    requires Reading(s, x)
    ensures s.applied <= |s.log|
  {
  }

  lemma CommandFirstInLog(s: System, x: Session)
    requires s.applied <= |s.log| && CommandFirst(s, x)
    ensures s.applied < |s.log|
  {
  }
}
