/** The text lines of the replication protocol: how src/replication/replication.c prints them,
    and how src/network/buffer.c and the receiving side take them apart again. */
module ControlLines {
  import opened Bytes
  import opened Store

  const SPACE: Byte := 32

  const PING: ByteString := Ascii("PING")
  const PONG: ByteString := Ascii("PONG")
  const PSYNC: ByteString := Ascii("PSYNC ? -1")
  const ONLINE_WORD: ByteString := Ascii("ONLINE ")
  const RESYNC_WORD: ByteString := Ascii("FULLRESYNC_RDMA ")

  /** Identifiers are 40 lower-case hexadecimal characters. */
  const ID_LENGTH: nat := 40

  predicate IsHex(b: Byte) {
    48 <= b <= 57 || 97 <= b <= 102
  }

  predicate IsId(s: ByteString) {
    |s| == ID_LENGTH && forall i :: 0 <= i < |s| ==> IsHex(s[i])
  }

  function OnlineFrame(offset: nat): ByteString {
    ONLINE_WORD + Decimal(offset)
  }

  function ReadyLine(id: ByteString): ByteString {
    Ascii("READY ") + id + CRLF
  }

  function AckLine(bytes: nat): ByteString {
    Ascii("SNAPSHOT_ACK ") + Decimal(bytes) + CRLF
  }

  datatype Resync = Resync(replicationId: ByteString, offset: nat, size: nat, port: nat, syncId: ByteString)

  function ResyncFrame(m: Resync): ByteString {
    RESYNC_WORD + m.replicationId + [SPACE] + Decimal(m.offset) + [SPACE] + Decimal(m.size)
    + [SPACE] + Decimal(m.port) + [SPACE] + m.syncId
  }

  // ------------------------------------------------------------ line splitting

  /** Index of the first line feed at or after `from`; `|s|` when there is none. */
  function FirstLf(s: ByteString, from: nat): (i: nat)
    requires from <= |s|
    ensures from <= i <= |s|
    ensures i < |s| ==> s[i] == LF
    ensures forall j :: from <= j < i ==> s[j] != LF
    decreases |s| - from
  {
    if from == |s| || s[from] == LF then from else FirstLf(s, from + 1)
  }

  /** The first complete line: its text without the delimiter and the bytes it occupies. */
  datatype Line = NoLine | Line(frame: ByteString, size: nat)

  /** `kvs_find_line_end`: lines end in LF, and a CR before it belongs to the delimiter. */
  function FirstLine(s: ByteString): (l: Line)
    ensures l.Line? ==> 0 < l.size <= |s| && |l.frame| < l.size
  {
    var i := FirstLf(s, 0);
    if i == |s| then NoLine
    else if i > 0 && s[i - 1] == CR then Line(s[..i - 1], i + 1)
    else Line(s[..i], i + 1)
  }

  /** `kvs_find_line_end`, the loop. */
  method FindLineEnd(s: ByteString) returns (found: bool, end: nat, delimiter: nat)
    ensures found <==> FirstLine(s).Line?
    ensures found ==> end + delimiter <= |s| && FirstLine(s) == Line(s[..end], end + delimiter)
  {
    end, delimiter := 0, 0;
    var i := 0;
    while i < |s|
      invariant 0 <= i <= |s| && FirstLf(s, i) == FirstLf(s, 0)
    {
      if s[i] == LF {
        if i > 0 && s[i - 1] == CR {
          return true, i - 1, 2;
        }
        return true, i, 1;
      }
      i := i + 1;
    }
    return false, 0, 0;
  }

  predicate NoLf(s: ByteString) {
    forall i :: 0 <= i < |s| ==> s[i] != LF
  }

  /** A printed line is found again whatever follows it. */
  lemma LineFound(frame: ByteString, rest: ByteString)
    requires NoLf(frame)
    ensures FirstLine(frame + CRLF + rest) == Line(frame, |frame| + 2)
  {
    var s := frame + CRLF + rest;
    var i := FirstLf(s, 0);
    assert s[|frame|] == CR && s[|frame| + 1] == LF;
    assert forall j :: 0 <= j < |frame| ==> s[j] == frame[j];
    assert i == |frame| + 1;
    assert s[..|frame|] == frame;
  }

  /** Until its line feed has arrived there is no line. */
  lemma LinePending(frame: ByteString, k: nat)
    requires NoLf(frame) && k < |frame| + 2
    ensures FirstLine((frame + CRLF)[..k]) == NoLine
  {
    var s := (frame + CRLF)[..k];
    assert NoLf(s);
  }

  // ------------------------------------------------------------------- parsing

  /** End of the run of digits that starts at `pos`. */
  function DigitsEnd(s: ByteString, pos: nat): (end: nat)
    requires pos <= |s|
    ensures pos <= end <= |s|
    ensures AllDigits(s[pos..end])
    ensures end < |s| ==> !IsDigit(s[end])
    decreases |s| - pos
  {
    if pos == |s| || !IsDigit(s[pos]) then pos
    else
      var end := DigitsEnd(s, pos + 1);
      assert s[pos..end] == [s[pos]] + s[pos + 1..end];
      end
  }

  lemma {:induction false} DigitsEndOf(s: ByteString, pos: nat, end: nat)
    requires pos <= end <= |s| && AllDigits(s[pos..end])
    requires end == |s| || !IsDigit(s[end])
    ensures DigitsEnd(s, pos) == end
    decreases end - pos
  {
    if pos < end {
      assert s[pos] == s[pos..end][0];
      assert s[pos + 1..end] == s[pos..end][1..];
      DigitsEndOf(s, pos + 1, end);
    }
  }

  /** `ONLINE <offset>`, exactly. */
  function ParseOnline(frame: ByteString): Option<nat> {
    if |frame| > |ONLINE_WORD| && frame[..|ONLINE_WORD|] == ONLINE_WORD && AllDigits(frame[|ONLINE_WORD|..])
    then Some(Value(frame[|ONLINE_WORD|..])) else None
  }

  lemma OnlineRoundTrip(offset: nat)
    ensures ParseOnline(OnlineFrame(offset)) == Some(offset)
    ensures NoLf(OnlineFrame(offset))
    ensures OnlineFrame(offset)[0] == 79
  {
    var f := OnlineFrame(offset);
    assert f[..|ONLINE_WORD|] == ONLINE_WORD && f[|ONLINE_WORD|..] == Decimal(offset);
    assert ONLINE_WORD == [79, 78, 76, 73, 78, 69, 32];
  }

  datatype Taken = NotTaken | Taken(value: nat, next: nat)

  /** A decimal number followed by one blank. */
  function TakeNumber(s: ByteString, pos: nat): (t: Taken)
    requires pos <= |s|
    ensures t.Taken? ==> pos < t.next <= |s|
  {
    var end := DigitsEnd(s, pos);
    if end == pos || end == |s| || s[end] != SPACE then NotTaken
    else Taken(Value(s[pos..end]), end + 1)
  }

  /** The notification that starts a full synchronisation. */
  function ParseResync(frame: ByteString): Option<Resync> {
    var start := |RESYNC_WORD|;
    var afterId := start + ID_LENGTH;
    if |frame| <= afterId || frame[..start] != RESYNC_WORD then None
    else if !IsId(frame[start..afterId]) || frame[afterId] != SPACE then None
    else
      match TakeNumber(frame, afterId + 1)
      case NotTaken => None
      case Taken(offset, p1) =>
        match TakeNumber(frame, p1)
        case NotTaken => None
        case Taken(size, p2) =>
          match TakeNumber(frame, p2)
          case NotTaken => None
          case Taken(port, p3) =>
            if IsId(frame[p3..]) && size > 0 && 0 < port <= 65535
            then Some(Resync(frame[start..afterId], offset, size, port, frame[p3..])) else None
  }

  lemma TakeNumberOf(pre: ByteString, n: nat, rest: ByteString)
    ensures TakeNumber(pre + Decimal(n) + [SPACE] + rest, |pre|) == Taken(n, |pre| + |Decimal(n)| + 1)
  {
    var s := pre + Decimal(n) + [SPACE] + rest;
    var end := |pre| + |Decimal(n)|;
    assert s[|pre|..end] == Decimal(n);
    assert s[end] == SPACE;
    DigitsEndOf(s, |pre|, end);
  }

  predicate ResyncOk(m: Resync) {
    IsId(m.replicationId) && IsId(m.syncId) && m.size > 0 && 0 < m.port <= 65535
  }

  lemma ResyncRoundTrip(m: Resync)
    requires ResyncOk(m)
    ensures ParseResync(ResyncFrame(m)) == Some(m)
    ensures NoLf(ResyncFrame(m)) && |ResyncFrame(m)| >= 16
    ensures ResyncFrame(m)[..16] == RESYNC_WORD
  {
    hide TakeNumber, Decimal;
    var f := ResyncFrame(m);
    var h0 := RESYNC_WORD + m.replicationId + [SPACE];
    var h1 := h0 + Decimal(m.offset) + [SPACE];
    var h2 := h1 + Decimal(m.size) + [SPACE];
    var h3 := h2 + Decimal(m.port) + [SPACE];
    assert f == h3 + m.syncId;
    var t2 := m.syncId;
    assert f == h2 + Decimal(m.port) + [SPACE] + t2;
    TakeNumberOf(h2, m.port, t2);
    var t1 := Decimal(m.port) + [SPACE] + t2;
    assert f == h1 + Decimal(m.size) + [SPACE] + t1;
    TakeNumberOf(h1, m.size, t1);
    var t0 := Decimal(m.size) + [SPACE] + t1;
    assert f == h0 + Decimal(m.offset) + [SPACE] + t0;
    TakeNumberOf(h0, m.offset, t0);
    ResyncParts(m);
  }

  lemma ResyncParts(m: Resync)
    requires ResyncOk(m)
    ensures var f := ResyncFrame(m);
            && |f| > 56 && f[..16] == RESYNC_WORD && f[16..56] == m.replicationId && f[56] == SPACE
            && f[|f| - 40..] == m.syncId && NoLf(f)
  {
    hide Decimal;
    var f := ResyncFrame(m);
    assert f[..16] == RESYNC_WORD;
    assert f[16..56] == m.replicationId;
    assert f[|f| - 40..] == m.syncId;
    assert NoLf(RESYNC_WORD) by {
      assert RESYNC_WORD == [70, 85, 76, 76, 82, 69, 83, 89, 78, 67, 95, 82, 68, 77, 65, 32];
    }
    NoLfDecimal(m.offset);
    NoLfDecimal(m.size);
    NoLfDecimal(m.port);
  }

  lemma NoLfDecimal(n: nat)
    ensures NoLf(Decimal(n))
  {
  }

  lemma HandshakeLines()
    ensures NoLf(PING) && NoLf(PONG) && NoLf(PSYNC)
    ensures |PING| == 4 && |PONG| == 4 && |PSYNC| == 10 && PING != PONG
  {
    assert PING == [80, 73, 78, 71];
    assert PONG == [80, 79, 78, 71];
    assert PSYNC == [80, 83, 89, 78, 67, 32, 63, 32, 45, 49];
  }

  lemma ReadyInjective(a: ByteString, b: ByteString)
    requires IsId(a) && IsId(b) && ReadyLine(a) == ReadyLine(b)
    ensures a == b
  {
    assert a == ReadyLine(a)[6..46];
    assert b == ReadyLine(b)[6..46];
  }

  lemma MessageSizes(id: ByteString, bytes: nat)
    requires IsId(id) && bytes <= INT64_MAX
    ensures 0 < |ReadyLine(id)| < 64 && 0 < |AckLine(bytes)| < 64
  {
    DecimalOfOffset(bytes);
  }

  /** File offsets print in at most 19 digits, so every message fits its buffer. */
  lemma DecimalOfOffset(n: nat)
    requires n <= INT64_MAX
    ensures |Decimal(n)| <= 19
  {
    assert PowerOfTen(9) == 1_000_000_000;
    assert PowerOfTen(19) > INT64_MAX;
    DecimalWidth(n, 19);
  }
}
