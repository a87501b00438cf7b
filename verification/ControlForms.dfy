/** The lines of the replication protocol byte for byte, and that the readers accept exactly
    lines of these forms. */
module ControlForms {
  import opened Bytes
  import opened Store
  import opened ControlLines

  /** The words of the protocol in ASCII. */
  lemma Words()
    ensures PING == [80, 73, 78, 71] && PONG == [80, 79, 78, 71]
    ensures PSYNC == [80, 83, 89, 78, 67, 32, 63, 32, 45, 49]
    ensures ONLINE_WORD == [79, 78, 76, 73, 78, 69, 32]
    ensures RESYNC_WORD == [70, 85, 76, 76, 82, 69, 83, 89, 78, 67, 95, 82, 68, 77, 65, 32]
  {
  }

  /** The two RDMA messages. */
  lemma Messages(id: ByteString, bytes: nat)
    ensures ReadyLine(id) == [82, 69, 65, 68, 89, 32] + id + [13, 10]
    ensures AckLine(bytes)
            == [83, 78, 65, 80, 83, 72, 79, 84, 95, 65, 67, 75, 32] + Decimal(bytes) + [13, 10]
  {
  }

  /** A line ends at the first line feed, and a carriage return just before it is not part of it;
      without a line feed there is no line. */
  lemma LineExactly(text: ByteString, rest: ByteString)
    requires NoLf(text)
    ensures FirstLine(text) == NoLine
    ensures FirstLine(text + [10] + rest)
            == Line(if text != [] && text[|text| - 1] == 13 then text[..|text| - 1] else text, |text| + 1)
  {
    var s := text + [10] + rest;
    assert forall i :: 0 <= i < |text| ==> s[i] == text[i];
    assert s[|text|] == LF;
    assert FirstLf(s, 0) == |text|;
    assert s[..|text|] == text;
  }

  /** "ONLINE " and a run of digits. */
  predicate OnlineForm(frame: ByteString, ds: ByteString, offset: nat) {
    IsNumeral(ds, offset) && frame == [79, 78, 76, 73, 78, 69, 32] + ds
  }

  /** "FULLRESYNC_RDMA ", the identifier of the Primary, the offset, the size, the port and the
      identifier of the synchronisation, one blank between each. */
  predicate ResyncForm(frame: ByteString, m: Resync, a: ByteString, b: ByteString, c: ByteString) {
    && ResyncOk(m) && IsNumeral(a, m.offset) && IsNumeral(b, m.size) && IsNumeral(c, m.port)
    && frame == [70, 85, 76, 76, 82, 69, 83, 89, 78, 67, 95, 82, 68, 77, 65, 32] + m.replicationId + [32] + a + [32] + b
                + [32] + c + [32] + m.syncId
  }

  lemma OnlineParsedExactly(frame: ByteString, offset: nat)
    ensures ParseOnline(frame) == Some(offset) <==> exists ds :: OnlineForm(frame, ds, offset)
  {
    Words();
    hide Ascii;
    if ParseOnline(frame) == Some(offset) {
      assert OnlineForm(frame, frame[7..], offset);
    }
    if ds :| OnlineForm(frame, ds, offset) {
      assert frame[..7] == ONLINE_WORD && frame[7..] == ds;
    }
  }

  /** A number is taken exactly where digits and a blank stand. */
  lemma TakenNumeral(s: ByteString, pos: nat)
    requires pos <= |s| && TakeNumber(s, pos).Taken?
    ensures var t := TakeNumber(s, pos); IsNumeral(s[pos..t.next - 1], t.value) && s[t.next - 1] == SPACE
  {
  }

  lemma NumeralTaken(pre: ByteString, ds: ByteString, n: nat, rest: ByteString)
    requires IsNumeral(ds, n)
    ensures TakeNumber(pre + ds + [SPACE] + rest, |pre|) == Taken(n, |pre| + |ds| + 1)
  {
    var s := pre + ds + [SPACE] + rest;
    var end := |pre| + |ds|;
    assert s[|pre|..end] == ds;
    assert s[end] == SPACE;
    DigitsEndOf(s, |pre|, end);
  }

  lemma ParsedForm(frame: ByteString, m: Resync) returns (a: ByteString, b: ByteString, c: ByteString)
    requires ParseResync(frame) == Some(m)
    ensures ResyncForm(frame, m, a, b, c)
  {
    Words();
    hide Ascii, TakeNumber;
    var p0 := 57;
    var p1 := TakeNumber(frame, p0).next;
    var p2 := TakeNumber(frame, p1).next;
    var p3 := TakeNumber(frame, p2).next;
    TakenNumeral(frame, p0);
    TakenNumeral(frame, p1);
    TakenNumeral(frame, p2);
    a, b, c := frame[p0..p1 - 1], frame[p1..p2 - 1], frame[p2..p3 - 1];
    Joined(frame, p1, p2, p3);
  }

  lemma Joined(s: ByteString, p1: nat, p2: nat, p3: nat)
    requires 57 < p1 < p2 < p3 <= |s| && s[56] == s[p1 - 1] == s[p2 - 1] == s[p3 - 1] == SPACE
    ensures s == s[..16] + s[16..56] + [32] + s[57..p1 - 1] + [32] + s[p1..p2 - 1] + [32] + s[p2..p3 - 1] + [32]
                 + s[p3..]
  {
  }

  lemma FormParsed(frame: ByteString, m: Resync, a: ByteString, b: ByteString, c: ByteString)
    requires ResyncForm(frame, m, a, b, c)
    ensures ParseResync(frame) == Some(m)
  {
    Words();
    hide Ascii, TakeNumber;
    var h0 := RESYNC_WORD + m.replicationId + [SPACE];
    var h1 := h0 + a + [SPACE];
    var h2 := h1 + b + [SPACE];
    var h3 := h2 + c + [SPACE];
    var t1 := c + [SPACE] + m.syncId;
    var t0 := b + [SPACE] + t1;
    assert frame == h3 + m.syncId;
    assert frame == h2 + c + [SPACE] + m.syncId;
    assert frame == h1 + b + [SPACE] + t1;
    assert frame == h0 + a + [SPACE] + t0;
    NumeralTaken(h0, a, m.offset, t0);
    NumeralTaken(h1, b, m.size, t1);
    NumeralTaken(h2, c, m.port, m.syncId);
    assert frame[..16] == RESYNC_WORD && frame[16..56] == m.replicationId && frame[56] == SPACE;
    assert frame[|h3|..] == m.syncId;
  }

  /** The notification is understood exactly in this form, with its fields in this order. */
  lemma ResyncParsedExactly(frame: ByteString, m: Resync)
    ensures ParseResync(frame) == Some(m) <==> exists a, b, c :: ResyncForm(frame, m, a, b, c)
  {
    hide ParseResync, ResyncForm;
    if ParseResync(frame) == Some(m) {
      var a, b, c := ParsedForm(frame, m);
    }
    if a, b, c :| ResyncForm(frame, m, a, b, c) {
      FormParsed(frame, m, a, b, c);
    }
  }

  /** What the Primary prints has this form, without leading zeros. */
  lemma ResyncPrinted(m: Resync)
    requires ResyncOk(m)
    ensures ResyncForm(ResyncFrame(m), m, Decimal(m.offset), Decimal(m.size), Decimal(m.port))
  {
    Words();
    hide Ascii, Decimal;
  }
}
