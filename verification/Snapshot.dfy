/** The binary snapshot format (src/persistence/snapshot_store.c): version 2 files are
    written, versions 1 and 2 are read, and loading undoes saving. */
module Snapshot {
  import opened Bytes
  import opened Store
  import opened Crc

  /** "91KVSNAP". */
  const MAGIC: ByteString := [57, 49, 75, 86, 83, 78, 65, 80]

  // ------------------------------------------------------ big-endian numbers

  function Power256(k: nat): nat {
    if k == 0 then 1 else 256 * Power256(k - 1)
  }

  function BigEndian(n: nat, width: nat): (b: ByteString)
    ensures |b| == width
    decreases width
  {
    if width == 0 then [] else BigEndian(n / 256, width - 1) + [n % 256]
  }

  function FromBigEndian(b: ByteString): nat {
    if b == [] then 0 else 256 * FromBigEndian(b[..|b| - 1]) + b[|b| - 1]
  }

  lemma {:induction false} BigEndianRoundTrip(n: nat, width: nat)
    requires n < Power256(width)
    ensures FromBigEndian(BigEndian(n, width)) == n
    decreases width
  {
    if width > 0 {
      BigEndianRoundTrip(n / 256, width - 1);
      assert BigEndian(n, width)[..width - 1] == BigEndian(n / 256, width - 1);
    }
  }

  // ------------------------------------------------------------------ format

  datatype Record = Record(engine: Engine, key: ByteString, value: ByteString)

  const UINT32_END: nat := 0x1_0000_0000
  const UINT64_END: nat := 0x1_0000_0000_0000_0000

  function EngineCode(e: Engine): Byte {
    match e
    case ArrayEngine => 1
    case TreeEngine => 2
    case HashEngine => 3
    case SkipEngine => 4
  }

  function EngineOfCode(b: Byte): Option<Engine> {
    if b == 1 then Some(ArrayEngine)
    else if b == 2 then Some(TreeEngine)
    else if b == 3 then Some(HashEngine)
    else if b == 4 then Some(SkipEngine)
    else None
  }

  function RecordHeader(r: Record): (h: ByteString)
    ensures |h| == 9
  {
    [EngineCode(r.engine)] + BigEndian(|r.key|, 4) + BigEndian(|r.value|, 4)
  }

  function RecordBytes(r: Record): (b: ByteString)
    ensures |b| == 9 + |r.key| + |r.value|
  {
    RecordHeader(r) + r.key + r.value
  }

  function RecordsBytes(rs: seq<Record>): ByteString {
    if rs == [] then [] else RecordBytes(rs[0]) + RecordsBytes(rs[1..])
  }

  function HeaderBytes(count: nat, checkpoint: Option<nat>): (h: ByteString)
    ensures |h| == 32
  {
    MAGIC + BigEndian(2, 4) + BigEndian(if checkpoint.Some? then 1 else 0, 4) + BigEndian(count, 8)
    + BigEndian(if checkpoint.Some? then checkpoint.value else 0, 8)
  }

  function BodyBytes(rs: seq<Record>, checkpoint: Option<nat>): ByteString {
    HeaderBytes(|rs|, checkpoint) + RecordsBytes(rs)
  }

  /** The bytes `snapshot_write_contents` produces. */
  function FileBytes(rs: seq<Record>, checkpoint: Option<nat>): ByteString {
    BodyBytes(rs, checkpoint) + WordBytes(Checksum(BodyBytes(rs, checkpoint)))
  }

  predicate RecordOk(r: Record) {
    NulFree(r.key) && NulFree(r.value) && |r.key| < UINT32_END && |r.value| < UINT32_END
  }

  /** What a save can represent. */
  predicate Savable(rs: seq<Record>, checkpoint: Option<nat>) {
    && |rs| < UINT64_END
    && (checkpoint.Some? ==> checkpoint.value <= INT64_MAX)
    && forall i :: 0 <= i < |rs| ==> RecordOk(rs[i])
  }

  // --------------------------------------------------------------- validation

  datatype Header = Header(count: nat, checkpoint: Option<nat>, size: nat)

  /** `snapshot_read_header`. */
  function ReadHeader(file: ByteString): (r: Option<Header>)
    ensures r.Some? ==> r.value.size <= |file| && (r.value.size == 20 || r.value.size == 32)
  {
    if |file| < 12 || file[..8] != MAGIC then None
    else
      var version := FromBigEndian(file[8..12]);
      if version == 1 then
        if |file| < 20 then None else Some(Header(FromBigEndian(file[12..20]), None, 20))
      else if version == 2 then
        if |file| < 32 then None
        else
          var flags := FromBigEndian(file[12..16]);
          var offset := FromBigEndian(file[24..32]);
          if flags > 1 || offset > INT64_MAX || (flags == 0 && offset != 0) then None
          else Some(Header(FromBigEndian(file[16..24]), if flags == 1 then Some(offset) else None, 32))
      else None
  }

  datatype Slot = Slot(record: Record, end: nat)

  /** `snapshot_cursor_take` of a record header, a key and a value: bounds and engine code only. */
  function ReadRecord(file: ByteString, pos: nat): (r: Option<Slot>)
    ensures r.Some? ==> pos + 9 <= r.value.end <= |file|
  {
    if pos > |file| || |file| - pos < 9 then None
    else
      match EngineOfCode(file[pos])
      case None => None
      case Some(engine) =>
        var keyLength := FromBigEndian(file[pos + 1..pos + 5]);
        var valueLength := FromBigEndian(file[pos + 5..pos + 9]);
        var start := pos + 9;
        if keyLength > |file| - start || valueLength > |file| - start - keyLength then None
        else
          var middle := start + keyLength;
          Some(Slot(Record(engine, file[start..middle], file[middle..middle + valueLength]), middle + valueLength))
  }

  /** `snapshot_check_record`: also refuses NUL bytes. */
  function CheckRecord(file: ByteString, pos: nat): (r: Option<nat>)
    ensures r.Some? ==> pos + 9 <= r.value <= |file|
  {
    match ReadRecord(file, pos)
    case None => None
    case Some(slot) =>
      if NulFree(slot.record.key) && NulFree(slot.record.value) then Some(slot.end) else None
  }

  function CheckRecords(file: ByteString, pos: nat, count: nat): (r: Option<nat>)
    requires pos <= |file|
    ensures r.Some? ==> pos <= r.value <= |file|
    decreases count
  {
    if count == 0 then Some(pos)
    else
      match CheckRecord(file, pos)
      case None => None
      case Some(next) => CheckRecords(file, next, count - 1)
  }

  /** `snapshot_validate`. */
  function Validate(file: ByteString): (r: Option<Header>) {
    if |file| < 24 then None
    else
      match ReadHeader(file)
      case None => None
      case Some(header) =>
        var remaining := |file| - header.size;
        if remaining < 4 || header.count > (remaining - 4) / 9 then None
        else
          match CheckRecords(file, header.size, header.count)
          case None => None
          case Some(end) =>
            if |file| - end < 4 then None
            else if Checksum(file[..end]) != BytesWord(file[end..end + 4]) then None
            else if end + 4 != |file| then None
            else Some(header)
  }

  // --------------------------------------------------------------- load pass

  /** `snapshot_insert_record`: duplicates and a full array are refused. */
  function Insert(s: Stores, r: Record): Option<Stores> {
    if r.key in TableOf(s, r.engine) then None
    else
      var result := RunSet(r.engine, TableOf(s, r.engine), r.key, r.value);
      if result.code == 0 then Some(WithTable(s, r.engine, result.table)) else None
  }

  function LoadRecords(file: ByteString, pos: nat, count: nat, s: Stores): Option<Stores>
    decreases count
  {
    if count == 0 then Some(s)
    else
      match ReadRecord(file, pos)
      case None => None
      case Some(slot) =>
        match Insert(s, slot.record)
        case None => None
        case Some(s') => LoadRecords(file, slot.end, count - 1, s')
  }

  datatype Loaded = LoadFailed | Loaded(stores: Stores, checkpoint: Option<nat>)

  /** `kvs_snapshot_store_load_with_checkpoint` into empty engines. */
  function Load(file: ByteString): Loaded {
    match Validate(file)
    case None => LoadFailed
    case Some(header) =>
      match LoadRecords(file, header.size, header.count, EMPTY)
      case None => LoadFailed
      case Some(s) => Loaded(s, header.checkpoint)
  }

  function InsertAll(s: Stores, rs: seq<Record>): Option<Stores>
    decreases |rs|
  {
    if rs == [] then Some(s)
    else
      match Insert(s, rs[0])
      case None => None
      case Some(s') => InsertAll(s', rs[1..])
  }

  // --------------------------------------- the load pass after validation

  /** The records a validated region holds. */
  function RecordsIn(file: ByteString, pos: nat, count: nat): (rs: seq<Record>)
    requires pos <= |file| && CheckRecords(file, pos, count).Some?
    ensures |rs| == count
    decreases count
  {
    if count == 0 then []
    else [ReadRecord(file, pos).value.record] + RecordsIn(file, ReadRecord(file, pos).value.end, count - 1)
  }

  /** After validation the load pass meets no format or bounds error: it fails only when an
      engine refuses one of the records that were already checked. */
  lemma {:induction false} LoadIsInsertAll(file: ByteString, pos: nat, count: nat, s: Stores)
    requires pos <= |file| && CheckRecords(file, pos, count).Some?
    ensures LoadRecords(file, pos, count, s) == InsertAll(s, RecordsIn(file, pos, count))
    decreases count
  {
    hide ReadRecord, Insert;
    if count > 0 {
      var slot := ReadRecord(file, pos).value;
      var rs := RecordsIn(file, pos, count);
      assert rs[0] == slot.record && rs[1..] == RecordsIn(file, slot.end, count - 1);
      if Insert(s, slot.record).Some? {
        LoadIsInsertAll(file, slot.end, count - 1, Insert(s, slot.record).value);
      }
    }
  }

  /** Acceptance implies the trailing checksum, however the lengths inside parse. */
  lemma ValidatedChecksum(file: ByteString)
    requires Validate(file).Some?
    ensures |file| >= 24
    ensures BytesWord(file[|file| - 4..]) == Checksum(file[..|file| - 4])
  {
  }

  // ---------------------------------------------------------------- corruption

  /** The two files differ only inside the four bytes starting at `at`. */
  predicate DifferWithin(a: ByteString, b: ByteString, at: nat) {
    && |a| == |b| && at + 4 <= |a|
    && a[..at] == b[..at] && a[at + 4..] == b[at + 4..]
  }

  /** Two accepted files that differ at most in four consecutive bytes are the same file. */
  lemma AcceptedNeighboursEqual(file: ByteString, other: ByteString, at: nat)
    requires Validate(file).Some? && Validate(other).Some? && DifferWithin(file, other, at)
    requires at + 4 <= |file| - 4 || at == |file| - 4
    ensures file == other
  {
    hide Update, Checksum, BytesWord, CheckRecords, ReadHeader;
    var n := |file| - 4;
    ValidatedChecksum(file);
    ValidatedChecksum(other);
    if at == n {
      BytesWordInjective(file[n..], other[n..]);
    } else {
      assert file[n..] == file[at + 4..][n - at - 4..] == other[n..];
      var post := file[at + 4..n];
      assert post == file[at + 4..][..n - at - 4] == other[at + 4..n];
      CutInThree(file, at, at + 4, n);
      CutInThree(other, at, at + 4, n);
      BurstDetected(file[..at], file[at..at + 4], other[at..at + 4], post);
    }
    assert file == file[..n] + file[n..] && other == other[..n] + other[n..];
  }

  /** A change of an accepted file confined to four consecutive bytes, wholly before the
      checksum or exactly in it, is always rejected. */
  lemma SmallDamageRejected(file: ByteString, damaged: ByteString, at: nat)
    requires Validate(file).Some? && DifferWithin(file, damaged, at) && file != damaged
    requires at + 4 <= |file| - 4 || at == |file| - 4
    ensures Validate(damaged).None?
  {
    hide Validate;
    if Validate(damaged).Some? {
      AcceptedNeighboursEqual(file, damaged, at);
    }
  }

  // --------------------------------------------------------------- round trip

  /** `rs` lists every binding of the four engines exactly once. */
  ghost predicate Enumerates(rs: seq<Record>, s: Stores) {
    && (forall i, j :: 0 <= i < j < |rs| ==> rs[i].engine != rs[j].engine || rs[i].key != rs[j].key)
    && (forall i :: 0 <= i < |rs| ==> Binds(s, rs[i]))
    && (forall e, k :: k in TableOf(s, e) ==> Record(e, k, TableOf(s, e)[k]) in rs)
  }

  predicate Binds(s: Stores, r: Record) {
    r.key in TableOf(s, r.engine) && TableOf(s, r.engine)[r.key] == r.value
  }

  lemma SameEnumeration(rs: seq<Record>, a: Stores, b: Stores)
    requires Enumerates(rs, a) && Enumerates(rs, b)
    ensures a == b
  {
    forall e ensures TableOf(a, e) == TableOf(b, e) {
      forall k ensures k in TableOf(a, e) <==> k in TableOf(b, e)
               ensures k in TableOf(a, e) ==> TableOf(a, e)[k] == TableOf(b, e)[k]
      {
        if k in TableOf(a, e) {
          assert Binds(b, Record(e, k, TableOf(a, e)[k]));
        }
        if k in TableOf(b, e) {
          assert Binds(a, Record(e, k, TableOf(b, e)[k]));
        }
      }
    }
    assert TableOf(a, ArrayEngine) == TableOf(b, ArrayEngine);
    assert TableOf(a, TreeEngine) == TableOf(b, TreeEngine);
    assert TableOf(a, HashEngine) == TableOf(b, HashEngine);
    assert TableOf(a, SkipEngine) == TableOf(b, SkipEngine);
  }

  lemma OtherKey(done: seq<Record>, e: Engine, k: ByteString, v: ByteString, key: ByteString)
    requires Record(e, k, v) in done
    requires forall i :: 0 <= i < |done| ==> done[i].engine != e || done[i].key != key
    ensures k != key
  {
  }

  /** The records already inserted bind nothing of the next record's key, and only what the
      goal binds. */
  lemma NextIsNew(done: seq<Record>, r: Record, rest: seq<Record>, s: Stores, goal: Stores)
    requires Enumerates(done, s) && Enumerates(done + [r] + rest, goal)
    ensures r.key !in TableOf(s, r.engine)
    ensures |TableOf(s, r.engine)| < |TableOf(goal, r.engine)|
  {
    var all := done + [r] + rest;
    var t, g := TableOf(s, r.engine), TableOf(goal, r.engine);
    assert all[|done|] == r && Binds(goal, all[|done|]);
    forall i | 0 <= i < |done| ensures done[i] == all[i] && (done[i].engine != r.engine || done[i].key != r.key) {
    }
    forall k | k in t ensures k != r.key && k in g {
      OtherKey(done, r.engine, k, t[k], r.key);
      var i :| 0 <= i < |done| && done[i] == Record(r.engine, k, t[k]);
      assert all[i] == done[i] && Binds(goal, all[i]);
    }
    SubsetSize(t.Keys, g.Keys, r.key);
  }

  /** Inserting the next record of an enumeration succeeds and extends what is enumerated. */
  lemma InsertNext(done: seq<Record>, r: Record, rest: seq<Record>, s: Stores, goal: Stores)
    requires Enumerates(done, s) && Enumerates(done + [r] + rest, goal)
    requires |goal.arrayTable| <= ARRAY_SIZE
    ensures Insert(s, r).Some? && Enumerates(done + [r], Insert(s, r).value)
  {
    NextIsNew(done, r, rest, s, goal);
    var s' := Insert(s, r).value;
    var now, all := done + [r], done + [r] + rest;
    forall i, j | 0 <= i < j < |now| ensures now[i].engine != now[j].engine || now[i].key != now[j].key {
      assert now[i] == all[i] && now[j] == all[j];
    }
    forall i | 0 <= i < |now| ensures Binds(s', now[i]) {
      if i < |done| {
        assert Binds(s, done[i]);
      }
    }
    forall e, k | k in TableOf(s', e) ensures Record(e, k, TableOf(s', e)[k]) in now {
      if e == r.engine && k == r.key {
        assert now[|done|] == Record(e, k, TableOf(s', e)[k]);
      } else {
        assert Record(e, k, TableOf(s, e)[k]) in done;
      }
    }
  }

  lemma SubsetSize<T>(a: set<T>, b: set<T>, x: T)
    requires a <= b - {x} && x in b
    ensures |a| < |b|
  {
    SubsetCard(a, b - {x});
  }

  lemma {:induction false} SubsetCard<T>(a: set<T>, b: set<T>)
    requires a <= b
    ensures |a| <= |b|
    decreases a
  {
    if a != {} {
      var x :| x in a;
      SubsetCard(a - {x}, b - {x});
    }
  }

  lemma {:induction false} InsertRest(done: seq<Record>, rest: seq<Record>, s: Stores, goal: Stores)
    requires Enumerates(done, s) && Enumerates(done + rest, goal)
    requires |goal.arrayTable| <= ARRAY_SIZE
    ensures InsertAll(s, rest) == Some(goal)
    decreases |rest|
  {
    hide Enumerates, Insert;
    if rest == [] {
      assert done + rest == done;
      SameEnumeration(done, s, goal);
    } else {
      assert done + rest == done + [rest[0]] + rest[1..];
      InsertNext(done, rest[0], rest[1..], s, goal);
      InsertRest(done + [rest[0]], rest[1..], Insert(s, rest[0]).value, goal);
    }
  }

  lemma EmptyEnumeration()
    ensures Enumerates([], EMPTY)
  {
  }

  /** Where the fields of a record sit. */
  lemma RecordFields(pre: ByteString, code: Byte, k: ByteString, v: ByteString, key: ByteString, value: ByteString,
                     rest: ByteString)
    requires |k| == 4 && |v| == 4
    ensures var file, p := pre + ([code] + k + v + key + value) + rest, |pre|;
            && file[p] == code && file[p + 1..p + 5] == k && file[p + 5..p + 9] == v
            && file[p + 9..p + 9 + |key|] == key
            && file[p + 9 + |key|..p + 9 + |key| + |value|] == value
  {
    var file, p := pre + ([code] + k + v + key + value) + rest, |pre|;
    assert file[p + 1..p + 5] == k;
    assert file[p + 5..p + 9] == v;
    assert file[p + 9..p + 9 + |key|] == key;
    assert file[p + 9 + |key|..p + 9 + |key| + |value|] == value;
  }

  lemma ReadRecordOf(pre: ByteString, r: Record, rest: ByteString)
    requires |r.key| < UINT32_END && |r.value| < UINT32_END
    ensures ReadRecord(pre + RecordBytes(r) + rest, |pre|) == Some(Slot(r, |pre| + |RecordBytes(r)|))
  {
    assert Power256(4) == UINT32_END;
    hide BigEndian, FromBigEndian, Power256;
    BigEndianRoundTrip(|r.key|, 4);
    BigEndianRoundTrip(|r.value|, 4);
    RecordFields(pre, EngineCode(r.engine), BigEndian(|r.key|, 4), BigEndian(|r.value|, 4), r.key, r.value, rest);
  }

  lemma {:induction false} CheckRecordsOf(pre: ByteString, rs: seq<Record>, rest: ByteString)
    requires forall i :: 0 <= i < |rs| ==> RecordOk(rs[i])
    ensures CheckRecords(pre + RecordsBytes(rs) + rest, |pre|, |rs|) == Some(|pre| + |RecordsBytes(rs)|)
    ensures RecordsIn(pre + RecordsBytes(rs) + rest, |pre|, |rs|) == rs
    decreases |rs|
  {
    hide RecordBytes, ReadRecord;
    var file := pre + RecordsBytes(rs) + rest;
    if rs != [] {
      var first, tail := RecordBytes(rs[0]), RecordsBytes(rs[1..]);
      assert file == pre + first + (tail + rest);
      ReadRecordOf(pre, rs[0], tail + rest);
      assert file == (pre + first) + tail + rest;
      CheckRecordsOf(pre + first, rs[1..], rest);
      assert rs == [rs[0]] + rs[1..];
    }
  }

  /** Where the fields of a version 2 header sit. */
  lemma HeaderFields(v: ByteString, f: ByteString, c: ByteString, o: ByteString, rest: ByteString)
    requires |v| == 4 && |f| == 4 && |c| == 8 && |o| == 8
    ensures var file := MAGIC + v + f + c + o + rest;
            && file[..8] == MAGIC && file[8..12] == v && file[12..16] == f
            && file[16..24] == c && file[24..32] == o
  {
    var file := MAGIC + v + f + c + o + rest;
    assert file[..8] == MAGIC;
    assert file[8..12] == v;
    assert file[12..16] == f;
    assert file[16..24] == c;
    assert file[24..32] == o;
  }

  lemma ReadHeaderOf(count: nat, checkpoint: Option<nat>, rest: ByteString)
    requires count < UINT64_END && (checkpoint.Some? ==> checkpoint.value <= INT64_MAX)
    ensures ReadHeader(HeaderBytes(count, checkpoint) + rest) == Some(Header(count, checkpoint, 32))
  {
    assert Power256(4) == UINT32_END && Power256(8) == UINT64_END;
    hide BigEndian, FromBigEndian, Power256;
    var flag, offset := if checkpoint.Some? then 1 else 0, if checkpoint.Some? then checkpoint.value else 0;
    BigEndianRoundTrip(2, 4);
    BigEndianRoundTrip(flag, 4);
    BigEndianRoundTrip(count, 8);
    BigEndianRoundTrip(offset, 8);
    HeaderFields(BigEndian(2, 4), BigEndian(flag, 4), BigEndian(count, 8), BigEndian(offset, 8), rest);
  }

  lemma {:induction false} RecordsAtLeastNine(rs: seq<Record>)
    ensures 9 * |rs| <= |RecordsBytes(rs)|
    decreases |rs|
  {
    if rs != [] {
      RecordsAtLeastNine(rs[1..]);
    }
  }

  lemma SumAtEnd(body: ByteString, sum: ByteString)
    requires |sum| == 4
    ensures (body + sum)[..|body|] == body && (body + sum)[|body|..|body| + 4] == sum
  {
  }

  /** A written file passes validation. */
  lemma SavedValidates(rs: seq<Record>, checkpoint: Option<nat>)
    requires Savable(rs, checkpoint)
    ensures |FileBytes(rs, checkpoint)| == 36 + |RecordsBytes(rs)|
    ensures Validate(FileBytes(rs, checkpoint)) == Some(Header(|rs|, checkpoint, 32))
    ensures CheckRecords(FileBytes(rs, checkpoint), 32, |rs|).Some?
    ensures RecordsIn(FileBytes(rs, checkpoint), 32, |rs|) == rs
  {
    hide HeaderBytes, RecordsBytes, CheckRecords, RecordsIn, ReadHeader, Checksum, WordBytes, BytesWord, RecordOk;
    var head := HeaderBytes(|rs|, checkpoint);
    var records := RecordsBytes(rs);
    var body := BodyBytes(rs, checkpoint);
    var sum := WordBytes(Checksum(body));
    var file := FileBytes(rs, checkpoint);
    assert file == head + (records + sum);
    ReadHeaderOf(|rs|, checkpoint, records + sum);
    assert file == head + records + sum;
    CheckRecordsOf(head, rs, sum);
    RecordsAtLeastNine(rs);
    BytesOfWord(Checksum(body));
    SumAtEnd(body, sum);
  }

  /** Loading a saved file restores the four maps and the checkpoint. */
  lemma SaveLoad(rs: seq<Record>, s: Stores, checkpoint: Option<nat>)
    requires Enumerates(rs, s) && Savable(rs, checkpoint) && |s.arrayTable| <= ARRAY_SIZE
    ensures Load(FileBytes(rs, checkpoint)) == Loaded(s, checkpoint)
  {
    hide Validate, FileBytes, Enumerates, CheckRecords, RecordsIn, LoadRecords, InsertAll, TableOf;
    var file := FileBytes(rs, checkpoint);
    SavedValidates(rs, checkpoint);
    LoadIsInsertAll(file, 32, |rs|, EMPTY);
    EmptyEnumeration();
    assert [] + rs == rs;
    InsertRest([], rs, EMPTY, s);
  }

  // -------------------------------------------------- what the traversals hand over

  /** The bindings one engine passes to its visitor, in order. */
  datatype Listing = Listing(keys: seq<ByteString>, values: seq<ByteString>)

  /** Every binding of the table, each once. */
  ghost predicate Lists(l: Listing, t: Table) {
    && |l.keys| == |l.values|
    && (forall i, j :: 0 <= i < j < |l.keys| ==> l.keys[i] != l.keys[j])
    && (forall i :: 0 <= i < |l.keys| ==> l.keys[i] in t && t[l.keys[i]] == l.values[i])
    && (forall k :: k in t ==> k in l.keys)
  }

  datatype Listings = Listings(arrayList: Listing, treeList: Listing, hashList: Listing, skipList: Listing)

  ghost predicate ListsAll(ls: Listings, s: Stores) {
    && Lists(ls.arrayList, s.arrayTable) && Lists(ls.treeList, s.treeTable)
    && Lists(ls.hashList, s.hashTable) && Lists(ls.skipList, s.skipTable)
  }

  function RecordsOf(e: Engine, l: Listing): (rs: seq<Record>)
    requires |l.keys| == |l.values|
    ensures |rs| == |l.keys| && forall i :: 0 <= i < |rs| ==> rs[i] == Record(e, l.keys[i], l.values[i])
  {
    seq(|l.keys|, i requires 0 <= i < |l.keys| => Record(e, l.keys[i], l.values[i]))
  }

  predicate Paired(ls: Listings) {
    && |ls.arrayList.keys| == |ls.arrayList.values| && |ls.treeList.keys| == |ls.treeList.values|
    && |ls.hashList.keys| == |ls.hashList.values| && |ls.skipList.keys| == |ls.skipList.values|
  }

  function AllRecords(ls: Listings): seq<Record>
    requires Paired(ls)
  {
    RecordsOf(ArrayEngine, ls.arrayList) + RecordsOf(TreeEngine, ls.treeList)
    + RecordsOf(HashEngine, ls.hashList) + RecordsOf(SkipEngine, ls.skipList)
  }

  /** One more engine, empty so far. */
  lemma ListingAdds(rs: seq<Record>, s: Stores, e: Engine, l: Listing, t: Table)
    requires Enumerates(rs, s) && TableOf(s, e) == map[] && Lists(l, t)
    ensures Enumerates(rs + RecordsOf(e, l), WithTable(s, e, t))
  {
    hide RecordsOf, WithTable;
    var more := RecordsOf(e, l);
    var all, s' := rs + more, WithTable(s, e, t);
    forall i, j | 0 <= i < j < |all| ensures all[i].engine != all[j].engine || all[i].key != all[j].key {
      if i < |rs| {
        assert all[i] == rs[i] && Binds(s, rs[i]);
      }
      if j >= |rs| {
        assert all[j] == more[j - |rs|];
      }
    }
    forall i | 0 <= i < |all| ensures Binds(s', all[i]) {
      if i < |rs| {
        assert all[i] == rs[i] && Binds(s, rs[i]);
      } else {
        assert all[i] == more[i - |rs|];
      }
    }
    forall e', k | k in TableOf(s', e') ensures Record(e', k, TableOf(s', e')[k]) in all {
      if e' == e {
        var i :| 0 <= i < |l.keys| && l.keys[i] == k;
        assert all[|rs| + i] == more[i];
      }
    }
  }

  /** The four traversals together enumerate the stores. */
  lemma ListingsEnumerate(ls: Listings, s: Stores)
    requires ListsAll(ls, s)
    ensures Paired(ls) && Enumerates(AllRecords(ls), s)
  {
    hide Enumerates, Lists, RecordsOf;
    ListsPaired(ls, s);
    EmptyEnumeration();
    ListingAdds([], EMPTY, ArrayEngine, ls.arrayList, s.arrayTable);
    assert [] + RecordsOf(ArrayEngine, ls.arrayList) == RecordsOf(ArrayEngine, ls.arrayList);
    var s1 := EMPTY.(arrayTable := s.arrayTable);
    ListingAdds(RecordsOf(ArrayEngine, ls.arrayList), s1, TreeEngine, ls.treeList, s.treeTable);
    var s2 := s1.(treeTable := s.treeTable);
    ListingAdds(RecordsOf(ArrayEngine, ls.arrayList) + RecordsOf(TreeEngine, ls.treeList), s2, HashEngine, ls.hashList,
                s.hashTable);
    var s3 := s2.(hashTable := s.hashTable);
    ListingAdds(RecordsOf(ArrayEngine, ls.arrayList) + RecordsOf(TreeEngine, ls.treeList) + RecordsOf(HashEngine,
      ls.hashList), s3,
                SkipEngine, ls.skipList, s.skipTable);
  }

  lemma ListsPaired(ls: Listings, s: Stores)
    requires ListsAll(ls, s)
    ensures Paired(ls)
  {
  }

  /** Keys and values are C strings. */
  ghost predicate TextOnly(s: Stores) {
    forall e, k :: k in TableOf(s, e) ==> NulFree(k) && NulFree(TableOf(s, e)[k])
  }

  /** Text whose lengths and number fit the fields of the format can be saved. */
  lemma EnumerationSavable(rs: seq<Record>, s: Stores, checkpoint: Option<nat>)
    requires Enumerates(rs, s) && TextOnly(s) && |rs| < UINT64_END
             && (checkpoint.Some? ==> checkpoint.value <= INT64_MAX)
    requires forall i :: 0 <= i < |rs| ==> |rs[i].key| < UINT32_END && |rs[i].value| < UINT32_END
    ensures Savable(rs, checkpoint)
  {
    hide NulFree, TableOf;
    forall i | 0 <= i < |rs| ensures RecordOk(rs[i]) {
      assert Binds(s, rs[i]);
    }
  }
}
