/** The snapshot format written out byte by byte, and that the reader accepts and loads exactly
    the files of this form. */
module SnapshotFormat {
  import opened Bytes
  import opened Store
  import opened Crc
  import opened Snapshot

  // ------------------------------------------------------------------ the format

  /** `n >> 8 * k & 255`. */
  function Octet(n: nat, k: nat): Byte {
    if k == 0 then n % 256 else Octet(n / 256, k - 1)
  }

  /** An unsigned number of `width` bytes, most significant first. */
  function Number(n: nat, width: nat): (b: ByteString)
    ensures |b| == width
  {
    seq(width, i requires 0 <= i < width => Octet(n, width - 1 - i))
  }

  /** "91KVSNAP", the version, in version 2 the flags, the number of records, and in version 2 the
      offset of the checkpoint or zero. A version 1 header has 20 bytes, a version 2 header 32. */
  function HeadImage(h: Header): ByteString {
    [57, 49, 75, 86, 83, 78, 65, 80]
    + if h.size == 20 then [0, 0, 0, 1] + Number(h.count, 8)
      else
        match h.checkpoint
        case None => [0, 0, 0, 2] + [0, 0, 0, 0] + Number(h.count, 8) + Number(0, 8)
        case Some(offset) => [0, 0, 0, 2] + [0, 0, 0, 1] + Number(h.count, 8) + Number(offset, 8)
  }

  /** The engine, the length of the key, the length of the value, the key, the value. */
  function RecordImage(r: Record): ByteString {
    (match r.engine
     case ArrayEngine => [1]
     case TreeEngine => [2]
     case HashEngine => [3]
     case SkipEngine => [4])
    + Number(|r.key|, 4) + Number(|r.value|, 4) + r.key + r.value
  }

  function RecordImages(rs: seq<Record>): ByteString {
    if rs == [] then [] else RecordImage(rs[0]) + RecordImages(rs[1..])
  }

  /** A whole file: header, records, and the CRC-32 of everything before it. */
  function FileImage(h: Header, rs: seq<Record>): ByteString {
    var body := HeadImage(h) + RecordImages(rs);
    body + Number(FromBits(Checksum(body)), 4)
  }

  /** A version 1 file has no checkpoint. */
  predicate HeaderOk(h: Header, rs: seq<Record>) {
    h.count == |rs| && (h.size == 32 || (h.size == 20 && h.checkpoint.None?))
  }

  // ------------------------------------------------- the model's own terms agree

  lemma {:induction false} NumberIs(n: nat, width: nat)
    ensures BigEndian(n, width) == Number(n, width)
    decreases width
  {
    if width > 0 {
      NumberIs(n / 256, width - 1);
      forall i | 0 <= i < width - 1 ensures Number(n, width)[i] == Number(n / 256, width - 1)[i] {
        assert Octet(n, width - 1 - i) == Octet(n / 256, width - 2 - i);
      }
      assert Octet(n, 0) == n % 256;
      assert Number(n, width) == Number(n / 256, width - 1) + [n % 256];
    }
  }

  lemma FirstBit(bits: seq<bool>)
    requires bits != []
    ensures FromBits(bits) == (if bits[0] then 1 else 0) + 2 * FromBits(bits[1..])
  {
  }

  lemma Doubled(x: nat, y: nat, p: nat, f: nat)
    ensures x + 2 * (y + p * f) == x + 2 * y + (2 * p) * f
  {
  }

  lemma {:induction false} BitsJoined(a: seq<bool>, b: seq<bool>)
    ensures FromBits(a + b) == FromBits(a) + PowerOfTwo(|a|) * FromBits(b)
    decreases |a|
  {
    if a == [] {
      assert a + b == b;
    } else {
      FirstBit(a);
      FirstBit(a + b);
      hide FromBits;
      BitsJoined(a[1..], b);
      assert (a + b)[1..] == a[1..] + b;
      Doubled(if a[0] then 1 else 0, FromBits(a[1..]), PowerOfTwo(|a| - 1), FromBits(b));
    }
  }

  lemma LowByte(bits: seq<bool>)
    requires |bits| >= 8
    ensures FromBits(bits) % 256 == FromBits(bits[..8])
    ensures FromBits(bits) / 256 == FromBits(bits[8..])
  {
    hide FromBits;
    assert PowerOfTwo(8) == 256;
    BitsJoined(bits[..8], bits[8..]);
    assert bits[..8] + bits[8..] == bits;
  }

  /** The k-th byte of a number is made of its bits 8k to 8k + 7. */
  lemma {:induction false} OctetIs(bits: seq<bool>, k: nat)
    requires |bits| >= 8 * k + 8
    ensures Octet(FromBits(bits), k) == FromBits(bits[8 * k..8 * k + 8])
    decreases k
  {
    hide FromBits;
    LowByte(bits);
    if k > 0 {
      OctetIs(bits[8..], k - 1);
      assert bits[8..][8 * k - 8..8 * k] == bits[8 * k..8 * k + 8];
    }
  }

  lemma SumIs(w: Word)
    ensures WordBytes(w) == Number(FromBits(w), 4)
  {
    OctetIs(w, 0);
    OctetIs(w, 1);
    OctetIs(w, 2);
    OctetIs(w, 3);
    assert w[24..] == w[24..32] && w[..8] == w[0..8];
    hide FromBits, Octet;
  }

  /** The version 2 header is the one that saves write. */
  lemma HeadIs(h: Header)
    requires h.size == 32
    ensures HeadImage(h) == HeaderBytes(h.count, h.checkpoint)
  {
    hide BigEndian;
    NumberIs(2, 4);
    NumberIs(0, 4);
    NumberIs(1, 4);
    NumberIs(h.count, 8);
    NumberIs(if h.checkpoint.Some? then h.checkpoint.value else 0, 8);
    SmallNumbers();
  }

  lemma SmallNumbers()
    ensures Number(0, 4) == [0, 0, 0, 0] && Number(1, 4) == [0, 0, 0, 1] && Number(2, 4) == [0, 0, 0, 2]
  {
    forall n: nat | n <= 2 ensures Number(n, 4) == [0, 0, 0, n] {
      assert Octet(n, 0) == n && Octet(n, 1) == Octet(0, 0) && Octet(n, 2) == Octet(0, 1) && Octet(n, 3) == Octet(0, 2);
    }
  }

  lemma {:induction false} RecordsAre(rs: seq<Record>)
    ensures RecordImages(rs) == RecordsBytes(rs)
    decreases |rs|
  {
    hide BigEndian, Number;
    if rs != [] {
      RecordsAre(rs[1..]);
      NumberIs(|rs[0].key|, 4);
      NumberIs(|rs[0].value|, 4);
    }
  }

  /** A save writes exactly the version 2 form. */
  lemma SavedForm(rs: seq<Record>, checkpoint: Option<nat>)
    ensures FileBytes(rs, checkpoint) == FileImage(Header(|rs|, checkpoint, 32), rs)
  {
    hide HeadImage, HeaderBytes, RecordImages, RecordsBytes, Number, WordBytes, Checksum, FromBits;
    HeadIs(Header(|rs|, checkpoint, 32));
    RecordsAre(rs);
    SumIs(Checksum(BodyBytes(rs, checkpoint)));
  }

  // ------------------------------------------------------ accepted files have the form

  lemma {:induction false} NumberOf(b: ByteString)
    ensures FromBigEndian(b) < Power256(|b|)
    ensures BigEndian(FromBigEndian(b), |b|) == b
    decreases |b|
  {
    if b != [] {
      NumberOf(b[..|b| - 1]);
      assert b == b[..|b| - 1] + [b[|b| - 1]];
    }
  }

  lemma Numeral(b: ByteString)
    ensures b == Number(FromBigEndian(b), |b|)
    ensures |b| == 4 ==> FromBigEndian(b) < UINT32_END
    ensures |b| == 8 ==> FromBigEndian(b) < UINT64_END
  {
    hide FromBigEndian, BigEndian, Number;
    assert Power256(4) == UINT32_END && Power256(8) == UINT64_END;
    NumberOf(b);
    NumberIs(FromBigEndian(b), |b|);
  }

  lemma FiveParts(s: ByteString, a: nat, b: nat, c: nat, d: nat, e: nat)
    requires a + 1 <= b <= c <= d <= e <= |s|
    ensures s[a..e] == [s[a]] + s[a + 1..b] + s[b..c] + s[c..d] + s[d..e]
  {
  }

  lemma RecordForm(file: ByteString, pos: nat)
    requires CheckRecord(file, pos).Some?
    ensures RecordOk(ReadRecord(file, pos).value.record)
    ensures file[pos..CheckRecord(file, pos).value] == RecordImage(ReadRecord(file, pos).value.record)
  {
    hide FromBigEndian, Number;
    var slot := ReadRecord(file, pos).value;
    var k, v := file[pos + 1..pos + 5], file[pos + 5..pos + 9];
    Numeral(k);
    Numeral(v);
    FiveParts(file, pos, pos + 5, pos + 9, pos + 9 + |slot.record.key|, slot.end);
  }

  lemma {:induction false} RecordsForm(file: ByteString, pos: nat, count: nat)
    requires pos <= |file| && CheckRecords(file, pos, count).Some?
    ensures file[pos..CheckRecords(file, pos, count).value] == RecordImages(RecordsIn(file, pos, count))
    ensures forall i :: 0 <= i < count ==> RecordOk(RecordsIn(file, pos, count)[i])
    decreases count
  {
    hide RecordImage, ReadRecord, RecordOk;
    if count > 0 {
      var next, end := CheckRecord(file, pos).value, CheckRecords(file, pos, count).value;
      RecordForm(file, pos);
      RecordsForm(file, next, count - 1);
      var rs := RecordsIn(file, pos, count);
      assert rs[1..] == RecordsIn(file, next, count - 1);
      assert file[pos..end] == file[pos..next] + file[next..end];
    }
  }

  lemma HeadForm(file: ByteString)
    requires ReadHeader(file).Some?
    ensures var h := ReadHeader(file).value;
            && file[..h.size] == HeadImage(h) && h.count < UINT64_END
            && (h.checkpoint.Some? ==> h.checkpoint.value <= INT64_MAX) && (h.size == 20 ==> h.checkpoint.None?)
  {
    hide FromBigEndian, Number;
    SmallNumbers();
    Numeral(file[8..12]);
    if ReadHeader(file).value.size == 20 {
      Numeral(file[12..20]);
      assert file[..20] == file[..8] + file[8..12] + file[12..20];
    } else {
      Numeral(file[12..16]);
      Numeral(file[16..24]);
      Numeral(file[24..32]);
      assert file[..32] == file[..8] + file[8..12] + file[12..16] + file[16..24] + file[24..32];
    }
  }

  lemma AcceptedForm(file: ByteString) returns (rs: seq<Record>)
    requires Validate(file).Some?
    ensures var h := Validate(file).value;
            HeaderOk(h, rs) && Savable(rs, h.checkpoint) && file == FileImage(h, rs)
            && CheckRecords(file, h.size, h.count).Some? && rs == RecordsIn(file, h.size, h.count)
  {
    hide ReadHeader, CheckRecords, RecordsIn, HeadImage, RecordImages, Number, Checksum, WordBytes, BytesWord, FromBits,
         RecordOk;
    var h := ReadHeader(file).value;
    HeadForm(file);
    var end := CheckRecords(file, h.size, h.count).value;
    RecordsForm(file, h.size, h.count);
    rs := RecordsIn(file, h.size, h.count);
    var body, sum := file[..end], file[end..];
    assert file[end..end + 4] == sum;
    BytesOfWord(Checksum(body));
    BytesWordInjective(WordBytes(Checksum(body)), sum);
    SumIs(Checksum(body));
    assert body == file[..h.size] + file[h.size..end];
    assert file == body + sum;
  }

  // ------------------------------------------------------ files of the form are accepted

  lemma VersionOneFields(v: ByteString, c: ByteString, rest: ByteString)
    requires |v| == 4 && |c| == 8
    ensures var file := MAGIC + v + c + rest; file[..8] == MAGIC && file[8..12] == v && file[12..20] == c
  {
    var file := MAGIC + v + c + rest;
    assert file[..8] == MAGIC;
    assert file[8..12] == v;
    assert file[12..20] == c;
  }

  lemma HeadAccepted(h: Header, rs: seq<Record>, rest: ByteString)
    requires HeaderOk(h, rs) && Savable(rs, h.checkpoint)
    ensures |HeadImage(h)| == h.size && ReadHeader(HeadImage(h) + rest) == Some(h)
  {
    if h.size == 32 {
      HeadIs(h);
      hide HeadImage, HeaderBytes, ReadHeader;
      ReadHeaderOf(h.count, h.checkpoint, rest);
    } else {
      assert Power256(4) == UINT32_END && Power256(8) == UINT64_END;
      SmallNumbers();
      NumberIs(1, 4);
      NumberIs(h.count, 8);
      BigEndianRoundTrip(1, 4);
      BigEndianRoundTrip(h.count, 8);
      hide BigEndian, FromBigEndian, Number, Power256;
      assert HeadImage(h) + rest == MAGIC + BigEndian(1, 4) + BigEndian(h.count, 8) + rest;
      VersionOneFields(BigEndian(1, 4), BigEndian(h.count, 8), rest);
    }
  }

  lemma FormAccepted(h: Header, rs: seq<Record>)
    requires HeaderOk(h, rs) && Savable(rs, h.checkpoint)
    ensures Validate(FileImage(h, rs)) == Some(h)
    ensures CheckRecords(FileImage(h, rs), h.size, h.count).Some? && RecordsIn(FileImage(h, rs), h.size, h.count) == rs
  {
    hide HeadImage, RecordImages, RecordsBytes, CheckRecords, RecordsIn, ReadHeader, Checksum, WordBytes, BytesWord,
         Number, FromBits, RecordOk;
    var head, records := HeadImage(h), RecordsBytes(rs);
    RecordsAre(rs);
    var body := head + records;
    var sum := WordBytes(Checksum(body));
    SumIs(Checksum(body));
    var file := FileImage(h, rs);
    assert file == head + (records + sum);
    HeadAccepted(h, rs, records + sum);
    assert file == head + records + sum;
    CheckRecordsOf(head, rs, sum);
    RecordsAtLeastNine(rs);
    BytesOfWord(Checksum(body));
    SumAtEnd(body, sum);
  }

  /** `snapshot_validate` accepts exactly the files of the form: whatever it accepts is the image
      of its header and some records, and every such image is accepted. */
  lemma AcceptedExactly(file: ByteString, h: Header)
    ensures Validate(file) == Some(h)
            <==> exists rs :: HeaderOk(h, rs) && Savable(rs, h.checkpoint) && file == FileImage(h, rs)
  {
    hide Validate, HeaderOk, Savable, FileImage, CheckRecords, RecordsIn;
    if Validate(file) == Some(h) {
      var rs := AcceptedForm(file);
    }
    if rs :| HeaderOk(h, rs) && Savable(rs, h.checkpoint) && file == FileImage(h, rs) {
      FormAccepted(h, rs);
    }
  }

  // ------------------------------------------------------------------ what is loaded

  /** A record is inserted as one more binding of a table that has room for it. */
  lemma Inserted(s: Stores, r: Record)
    requires Insert(s, r).Some?
    ensures r.key !in TableOf(s, r.engine)
    ensures Insert(s, r).value == WithTable(s, r.engine, TableOf(s, r.engine)[r.key := r.value])
    ensures |s.arrayTable| <= ARRAY_SIZE ==> |Insert(s, r).value.arrayTable| <= ARRAY_SIZE
  {
  }

  lemma OtherTable(s: Stores, e: Engine, t: Table, other: Engine)
    ensures TableOf(WithTable(s, e, t), other) == if other == e then t else TableOf(s, other)
  {
  }

  lemma InsertEnumerates(done: seq<Record>, r: Record, s: Stores)
    requires Enumerates(done, s) && Insert(s, r).Some?
    ensures Enumerates(done + [r], Insert(s, r).value)
  {
    hide Insert, TableOf, WithTable;
    Inserted(s, r);
    var s', now := Insert(s, r).value, done + [r];
    var t := TableOf(s, r.engine)[r.key := r.value];
    OtherTable(s, r.engine, t, r.engine);
    forall i | 0 <= i < |done| ensures Binds(s', now[i]) && (done[i].engine != r.engine || done[i].key != r.key) {
      assert Binds(s, done[i]);
      OtherTable(s, r.engine, t, done[i].engine);
    }
    forall e, k | k in TableOf(s', e) ensures Record(e, k, TableOf(s', e)[k]) in now {
      OtherTable(s, r.engine, t, e);
      if e == r.engine && k == r.key {
        assert now[|done|] == Record(e, k, TableOf(s', e)[k]);
      } else {
        assert Record(e, k, TableOf(s, e)[k]) in done;
      }
    }
  }

  lemma {:induction false} InsertAllEnumerates(done: seq<Record>, rest: seq<Record>, s: Stores)
    requires Enumerates(done, s) && InsertAll(s, rest).Some? && |s.arrayTable| <= ARRAY_SIZE
    ensures Enumerates(done + rest, InsertAll(s, rest).value) && |InsertAll(s, rest).value.arrayTable| <= ARRAY_SIZE
    decreases |rest|
  {
    hide Enumerates, Insert;
    if rest == [] {
      assert done + rest == done;
    } else {
      assert done + rest == done + [rest[0]] + rest[1..];
      InsertEnumerates(done, rest[0], s);
      Inserted(s, rest[0]);
      InsertAllEnumerates(done + [rest[0]], rest[1..], Insert(s, rest[0]).value);
    }
  }

  /** Loading succeeds exactly for the files of the form, of either version, whose records list
      every binding of some stores once, with an array that is not overfull; it gives these stores
      and the checkpoint of the header. */
  lemma LoadedExactly(file: ByteString, s: Stores, checkpoint: Option<nat>)
    ensures Load(file) == Loaded(s, checkpoint)
            <==> |s.arrayTable| <= ARRAY_SIZE
                 && exists h, rs :: LoadableAs(file, h, rs, s) && h.checkpoint == checkpoint
  {
    hide Validate, HeaderOk, Savable, FileImage, CheckRecords, RecordsIn, LoadRecords, InsertAll, Enumerates;
    if Load(file) == Loaded(s, checkpoint) {
      var h := Validate(file).value;
      var rs := AcceptedForm(file);
      LoadIsInsertAll(file, h.size, h.count, EMPTY);
      EmptyEnumeration();
      InsertAllEnumerates([], rs, EMPTY);
      assert [] + rs == rs;
      assert LoadableAs(file, h, rs, s);
    }
    if h, rs :| |s.arrayTable| <= ARRAY_SIZE && LoadableAs(file, h, rs, s) && h.checkpoint == checkpoint {
      FormAccepted(h, rs);
      HeaderFits(file);
      LoadIsInsertAll(file, h.size, h.count, EMPTY);
      EmptyEnumeration();
      assert [] + rs == rs;
      InsertRest([], rs, EMPTY, s);
    }
  }

  ghost predicate LoadableAs(file: ByteString, h: Header, rs: seq<Record>, s: Stores) {
    HeaderOk(h, rs) && Savable(rs, h.checkpoint) && file == FileImage(h, rs) && Enumerates(rs, s)
  }

  lemma HeaderFits(file: ByteString)
    requires Validate(file).Some?
    ensures Validate(file).value.size <= |file|
  {
  }
}
