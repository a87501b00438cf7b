/** The two TCP line handlers keep the invariant. */
module ClusterHandshake {
  import opened Bytes
  import opened Codec
  import opened Store
  import opened Aof
  import opened Snapshot
  import opened Rdma
  import opened ControlLines
  import opened Replication
  import opened Cluster
  import opened ClusterInvariant
  import opened ClusterNetwork
  import opened ClusterPrimary
  import opened ClusterCatchUp

  // ------------------------------------------------------------ Replica's handler

  /** The Replica side of a handled piece of input. */
  function Consumed(s: System, r: Replica, response: ByteString, consumed: nat, applied: nat): System
    requires s.r.conn.Some? && consumed <= |s.r.input|
  {
    s.(r := r.(input := s.r.input[consumed..]), toPrimary := Push(s.toPrimary, s.r.conn.value, response),
       nextLink := s.nextLink + 1, applied := applied)
  }

  /** Nothing was complete yet. */
  lemma NothingConsumed(s: System)
    requires Inv(s) && s.r.conn.Some?
    ensures Inv(Consumed(s, s.r, [], 0, s.applied))
  {
    hide SessionOk, LogOk, PrimaryOk, LinkOk, PositionsOk, ReplicaFullSyncOk, ReplicaCaughtUpOk, Untouched, ResyncFrame,
         NextPart;
    var s' := Consumed(s, s.r, [], 0, s.applied);
    assert s'.r == s.r by { assert s.r.input[0..] == s.r.input; }
    assert s'.toPrimary == s.toPrimary by { PushNothing(s.toPrimary, s.r.conn.value); }
    var c := s.r.conn.value;
    assert SessionsOk(s');
    assert c in s'.received ==> Outstanding(s', c) == Outstanding(s, c);
    if s.r.phase.Handshake? {
      if id :| id in s.sessions && Notified(s, c, id) {
        assert Notified(s', c, id);
      }
    }
  }

  lemma PushNothing(m: map<nat, ByteString>, c: nat)
    ensures Push(m, c, []) == m
  {
    if c in m {
      assert m[c] + [] == m[c];
    }
  }

  /** A Replica past its full synchronisation consumed one command or the ONLINE line. */
  lemma CaughtUpConsumed(s: System, q: Replica, consumed: nat, k: nat)
    requires Inv(s) && ReplicaReadsTcp(s) && s.r.input != [] && (s.r.phase.CatchUp? || s.r.phase.Online?)
    requires consumed <= |s.r.input| && k <= |s.log|
    requires q == s.r.(stores := q.stores, aof := q.aof, offset := q.offset, phase := q.phase)
    requires q.phase == s.r.phase || q.phase.Online?
    requires s.r.syncId.Some? && s.r.syncId.value in s.sessions
    requires var x := s.sessions[s.r.syncId.value];
             && PositionsOk(s.base, s.log, s.p.aof, x)
             && CopyOk(s.base, s.log, s.p.aof, x, q.(input := s.r.input[consumed..]), k)
             && StreamOk(s.base, s.log, s.p.aof, x, q.(input := s.r.input[consumed..]), k, s.toReplica[s.r.conn.value])
    ensures Inv(Consumed(s, q, [], consumed, k))
  {
    hide SessionOk, LogOk, PrimaryOk, LinkOk, PositionsOk, CopyOk, StreamOk, Untouched, ResyncFrame, NextPart;
    var s' := Consumed(s, q, [], consumed, k);
    PushNothing(s.toPrimary, s.r.conn.value);
    var c := s.r.conn.value;
    assert SessionsOk(s');
    assert c in s'.received ==> Outstanding(s', c) == Outstanding(s, c);
  }

  lemma CaughtUpHandleOk(s: System)
    requires Inv(s) && ReplicaReadsTcp(s) && s.r.input != [] && (s.r.phase.CatchUp? || s.r.phase.Online?)
    ensures Inv(DoReplicaHandle(s))
  {
    hide Inv, Reading, CommandFirst, UpstreamProtocol, EncodeCommand, OnlineLine, PositionsOk, CopyOk, StreamOk, Apply;
    ReadingHolds(s);
    var x := s.sessions[s.r.syncId.value];
    ReadingFacts(s, x);
    if CommandFirst(s, x) {
      CommandFirstInLog(s, x);
      var e := EncodeCommand(s.log[s.applied]);
      if |s.r.input| < |e| {
        WaitForCommand(s, x);
        NothingConsumed(s);
      } else {
        ApplyNext(s, x);
        EncodedNonEmpty(s.log[s.applied]);
        var r' := s.r.(stores := Apply(s.r.stores, s.log[s.applied]).value, aof := s.r.aof + e,
                       offset := |s.r.aof + e|);
        CaughtUpConsumed(s, r', |e|, s.applied + 1);
      }
    } else {
      HandleOnline(s, x);
      if |s.r.input| < |OnlineLine(|s.r.aof|)| {
        NothingConsumed(s);
      } else {
        CaughtUpConsumed(s, s.r.(offset := |s.r.aof|, phase := Online), |OnlineLine(|s.r.aof|)|, s.applied);
      }
    }
  }

  lemma ReadingFacts(s: System, x: Session)
    requires Reading(s, x)
    ensures s.applied <= |s.log| && PositionsOk(s.base, s.log, s.p.aof, x)
  {
  }

  /** The lines of the handshake as the Replica sees them. */
  lemma LineInput(input: ByteString, inFlight: ByteString, frame: ByteString)
    requires NoLf(frame) && input + inFlight == frame + CRLF
    ensures if |input| < |frame + CRLF| then FirstLine(input) == NoLine
            else FirstLine(input) == Line(frame, |input|) && inFlight == [] && |input| == |frame + CRLF|
  {
    if |input| < |frame + CRLF| {
      assert input == (input + inFlight)[..|input|] == (frame + CRLF)[..|input|];
      LinePending(frame, |input|);
    } else {
      assert |input + inFlight| == |frame + CRLF|;
      assert input == input + inFlight;
      LineFound(frame, []);
      assert frame + CRLF + [] == input;
    }
  }

  lemma PongHandleOk(s: System)
    requires Inv(s) && ReplicaReadsTcp(s) && s.r.input != [] && s.r.phase.Handshake?
    requires var c := s.r.conn.value;
             && (c in s.received ==> Outstanding(s, c) == []) && s.r.input + s.toReplica[c] == PONG + CRLF
             && s.p.session != Some(c)
    ensures Inv(DoReplicaHandle(s))
  {
    hide SessionOk, LogOk, PrimaryOk, LinkOk, Untouched, ResyncFrame, PONG, PING, PSYNC, FirstLine;
    HandshakeLines();
    var c := s.r.conn.value;
    LineInput(s.r.input, s.toReplica[c], PONG);
    if |s.r.input| < |PONG + CRLF| {
      NothingConsumed(s);
    } else {
      var s' := DoReplicaHandle(s);
      assert s' == Consumed(s, s.r, PSYNC + CRLF, |s.r.input|, s.applied);
      assert SessionsOk(s');
      if c in s.received {
        assert Outstanding(s', c) == Outstanding(s, c) + (PSYNC + CRLF);
      }
      assert s'.r.input + s'.toReplica[c] == [];
    }
  }

  /** The whole notification at the front of the input is accepted. */
  lemma NotifiedHandled(s: System, id: ByteString)
    requires Inv(s) && ReplicaReadsTcp(s) && s.r.input != [] && s.r.phase.Handshake?
    requires Notified(s, s.r.conn.value, id) && s.toReplica[s.r.conn.value] == []
    ensures var x := s.sessions[id];
            UpstreamProtocol(s.r, s.r.input, s.nextLink)
            == Handled(s.r.(writer := Writer([], |x.file|), syncId := Some(id), offset := x.sent, size := |x.file|,
                            sync := s.r.sync.(endpoint := Some(NewEndpoint(s.nextLink))), phase := FullSync),
                       [], |s.r.input|)
  {
    hide LogOk, PrimaryOk, Load, StoresAt, Stream, Off, ResyncFrame, ParseResync, FirstLine, PONG, PSYNC, RESYNC_WORD,
         NextPart;
    var x := s.sessions[id];
    var m := Resync(x.replicationId, x.sent, |x.file|, x.port, id);
    ResyncRoundTrip(m);
    LineInput(s.r.input, [], ResyncFrame(m));
    ResyncIsNotPong(m);
    SessionNumbers(s, id);
  }

  lemma NotifiedHandleOk(s: System, id: ByteString)
    requires Inv(s) && ReplicaReadsTcp(s) && s.r.input != [] && s.r.phase.Handshake?
    requires Notified(s, s.r.conn.value, id)
    requires s.r.conn.value in s.received ==> Outstanding(s, s.r.conn.value) == []
    ensures Inv(DoReplicaHandle(s))
  {
    hide LogOk, PrimaryOk, Load, StoresAt, Stream, Off, ResyncFrame, ParseResync, FirstLine, PONG, PSYNC, RESYNC_WORD,
         NextPart;
    var c := s.r.conn.value;
    var x := s.sessions[id];
    var m := Resync(x.replicationId, x.sent, |x.file|, x.port, id);
    ResyncRoundTrip(m);
    LineInput(s.r.input, s.toReplica[c], ResyncFrame(m));
    if |s.r.input| < |ResyncFrame(m) + CRLF| {
      hide Notified;
      NothingConsumed(s);
    } else {
      NotifiedHandled(s, id);
      FullSyncStarted(s, id, UpstreamProtocol(s.r, s.r.input, s.nextLink).state);
    }
  }

  lemma SessionNumbers(s: System, id: ByteString)
    requires Inv(s) && id in s.sessions && Untouched(s.base, s.log, s.sessions[id])
    ensures s.sessions[id].sent <= INT64_MAX && |s.sessions[id].file| <= INT64_MAX
    ensures IsId(id) && IsId(s.sessions[id].replicationId)
  {
    hide EncodeLog, ApplyAll, Load;
  }

  lemma ResyncIsNotPong(m: Resync)
    requires ResyncOk(m)
    ensures ResyncFrame(m) != PONG && ResyncFrame(m) != []
  {
    hide ResyncFrame;
    HandshakeLines();
    ResyncRoundTrip(m);
  }

  /** The notification opens the Replica's side of the RDMA connection. */
  lemma FullSyncStarted(s: System, id: ByteString, q: Replica)
    requires Inv(s) && ReplicaReadsTcp(s) && s.r.input != [] && s.r.phase.Handshake?
    requires Notified(s, s.r.conn.value, id) && s.toReplica[s.r.conn.value] == []
    requires s.r.conn.value in s.received ==> Outstanding(s, s.r.conn.value) == []
    requires var x := s.sessions[id];
             q == s.r.(writer := Writer([], |x.file|), syncId := Some(id), offset := x.sent, size := |x.file|,
                       sync := s.r.sync.(endpoint := Some(NewEndpoint(s.nextLink))), phase := FullSync)
    ensures Inv(Consumed(s, q, [], |s.r.input|, s.applied))
  {
    hide LogOk, PrimaryOk, Load, StoresAt, Stream, Off, ResyncFrame, NextPart, ReadyLine, AckLine;
    var s' := Consumed(s, q, [], |s.r.input|, s.applied);
    var c := s.r.conn.value;
    var x := s.sessions[id];
    PushNothing(s.toPrimary, c);
    assert SessionsOk(s');
    assert c in s'.received ==> Outstanding(s', c) == Outstanding(s, c);
    assert PositionsOk(s.base, s.log, s.p.aof, x) && x.file[..0] == [];
    assert ReplicaSessionOk(s', c);
    assert LinkOk(s'.sessions, s'.p.syncId, s'.p.sync, s'.r.syncId, s'.r.sync);
  }

  lemma HandshakeInput(s: System)
    requires Inv(s) && ReplicaReadsTcp(s) && s.r.input != [] && s.r.phase.Handshake?
    ensures var c := s.r.conn.value;
            && (c in s.received ==> Outstanding(s, c) == [])
            && ((s.r.input + s.toReplica[c] == PONG + CRLF && s.p.session != Some(c))
                || exists id :: id in s.sessions && Notified(s, c, id))
  {
    hide SessionsOk, LogOk, PrimaryOk, LinkOk, Untouched, ResyncFrame, PONG, PING, PSYNC;
    assert |s.r.input + s.toReplica[s.r.conn.value]| > 0;
  }

  lemma ReplicaHandleOk(s: System)
    requires Inv(s)
    ensures Inv(DoReplicaHandle(s))
  {
    hide Inv, UpstreamProtocol, Notified;
    if !ReplicaReadsTcp(s) || s.r.input == [] {
    } else {
      ReadingPhase(s);
      if s.r.phase.Handshake? {
        HandshakeInput(s);
        if id :| id in s.sessions && Notified(s, s.r.conn.value, id) {
          NotifiedHandleOk(s, id);
        } else {
          PongHandleOk(s);
        }
      } else {
        CaughtUpHandleOk(s);
      }
    }
  }

  lemma ReadingPhase(s: System)
    requires Inv(s) && ReplicaReadsTcp(s)
    ensures s.r.phase.Handshake? || s.r.phase.CatchUp? || s.r.phase.Online?
  {
    hide LogOk, PrimaryOk, LinkOk, Untouched, HandshakeOk, ReplicaCaughtUpOk, SessionsOk;
  }
}
