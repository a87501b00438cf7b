/** The imperative half of src/persistence/snapshot_store.c: the 256 KiB buffered writer over
    io_uring, and the cursor that validates and loads a mapped file. */
module SnapshotFile {
  import opened Bytes
  import opened Store
  import opened Crc
  import opened Snapshot
  import opened Uring
  import Strings

  const BUFFER_SIZE: nat := 256 * 1024
  const BLOCK_SIZE: nat := 64 * 1024
  const BLOCK_COUNT: nat := 4

  // --------------------------------------------------- blocks that tile a range

  /** The blocks hold `data`, one after the other, from file offset `start` on. */
  ghost predicate Tiling(blocks: seq<Block>, start: nat, data: ByteString)
    decreases |blocks|
  {
    if blocks == [] then data == []
    else
      var last := blocks[|blocks| - 1];
      && last.data != [] && |last.data| <= |data| && last.data == data[|data| - |last.data|..]
      && last.offset == start + |data| - |last.data|
      && Tiling(blocks[..|blocks| - 1], start, data[..|data| - |last.data|])
  }

  lemma NoBlocks(start: nat)
    ensures Tiling([], start, [])
  {
  }

  lemma TilingMore(blocks: seq<Block>, start: nat, data: ByteString, piece: ByteString)
    requires Tiling(blocks, start, data) && piece != []
    ensures Tiling(blocks + [Block(piece, start + |data|)], start, data + piece)
  {
    var more := blocks + [Block(piece, start + |data|)];
    assert more[..|more| - 1] == blocks && (data + piece)[..|data|] == data && (data + piece)[|data|..] == piece;
  }

  /** Every byte of the range belongs to a block that has it. */
  lemma {:induction false} TilingCovers(blocks: seq<Block>, start: nat, data: ByteString, p: nat) returns (i: nat)
    requires Tiling(blocks, start, data) && start <= p < start + |data|
    ensures i < |blocks| && Covers(blocks[i], p) && blocks[i].data[p - blocks[i].offset] == data[p - start]
    decreases |blocks|
  {
    var last := blocks[|blocks| - 1];
    var front := data[..|data| - |last.data|];
    if p >= last.offset {
      i := |blocks| - 1;
    } else {
      i := TilingCovers(blocks[..|blocks| - 1], start, front, p);
    }
  }

  lemma {:induction false} TilingBounds(blocks: seq<Block>, start: nat, data: ByteString)
    requires Tiling(blocks, start, data)
    ensures Furthest(blocks) == if data == [] then 0 else start + |data|
    ensures forall i :: 0 <= i < |blocks| ==> start <= blocks[i].offset
    decreases |blocks|
  {
    if blocks != [] {
      var last := blocks[|blocks| - 1];
      TilingBounds(blocks[..|blocks| - 1], start, data[..|data| - |last.data|]);
    }
  }

  lemma TilingEnds(blocks: seq<Block>, start: nat, data: ByteString, i: nat)
    requires Tiling(blocks, start, data) && i < |blocks|
    ensures blocks[i].data != [] && start <= blocks[i].offset && blocks[i].offset + |blocks[i].data| <= start + |data|
    ensures i > 0 ==> blocks[i].offset >= blocks[i - 1].offset + |blocks[i - 1].data|
    decreases |blocks|
  {
    var last := |blocks| - 1;
    var front := data[..|data| - |blocks[last].data|];
    if i < last {
      TilingEnds(blocks[..last], start, front, i);
    } else if i > 0 {
      TilingEnds(blocks[..last], start, front, i - 1);
    }
  }

  lemma {:induction false} TilingInOrder(blocks: seq<Block>, start: nat, data: ByteString, i: nat, j: nat)
    requires Tiling(blocks, start, data) && i < j < |blocks|
    ensures blocks[i].offset + |blocks[i].data| <= blocks[j].offset
    decreases j
  {
    TilingEnds(blocks, start, data, j);
    if i < j - 1 {
      TilingInOrder(blocks, start, data, i, j - 1);
      TilingEnds(blocks, start, data, j - 1);
    }
  }

  /** Blocks that tile a range never overlap: the batch writer accepts them. */
  lemma TilingAcceptable(blocks: seq<Block>, start: nat, data: ByteString)
    requires Tiling(blocks, start, data) && start + |data| <= INT64_MAX && |blocks| <= QUEUE_DEPTH
    ensures Acceptable(blocks)
  {
    hide Tiling;
    forall i | 0 <= i < |blocks| ensures blocks[i].offset >= 0 && blocks[i].offset + |blocks[i].data| <= INT64_MAX {
      TilingEnds(blocks, start, data, i);
    }
    forall i, j | 0 <= j < i < |blocks| ensures !Overlap(blocks[i], blocks[j]) {
      TilingInOrder(blocks, start, data, j, i);
    }
  }

  /** Writing blocks that tile the range behind the end appends their data. */
  lemma TilingAppends(file: ByteString, blocks: seq<Block>, data: ByteString, after: ByteString)
    requires Tiling(blocks, |file|, data) && Patched(file, blocks, after)
    ensures after == file + data
  {
    TilingBounds(blocks, |file|, data);
    forall p | 0 <= p < |after| ensures after[p] == (file + data)[p] {
      if p < |file| {
        assert Free(blocks, p);
      } else {
        var i := TilingCovers(blocks, |file|, data, p);
      }
    }
  }

  // ------------------------------------------------------------------- the writer

  /** `snapshot_writer_t`. The file followed by the buffered bytes is everything appended. */
  class BufferedWriter {
    const io: Ring
    const buffer: array<Byte>
    var buffered: nat
    var nextOffset: nat

    ghost predicate Valid()
      reads this, io, buffer
    {
      && buffer.Length == BUFFER_SIZE && buffered <= BUFFER_SIZE && nextOffset == |io.file|
      && io.initialized && io.flying == [] && io.prepared == []
    }

    /** Everything appended so far. */
    ghost function Appended(): ByteString
      requires Valid()
      reads this, io, buffer
    {
      io.file + buffer[..buffered]
    }

    /** `snapshot_writer_init` on a new temporary file. */
    constructor (io: Ring)
      requires io.initialized && io.flying == [] && io.prepared == [] && io.file == []
      ensures Valid() && Appended() == [] && this.io == io && fresh(buffer)
    {
      this.io := io;
      buffer := new Byte[BUFFER_SIZE](_ => 0);
      buffered, nextOffset := 0, 0;
    }

    /** The requests of one flush: blocks of at most 64 KiB. */
    method CutBlocks() returns (blocks: seq<Block>)
      requires Valid()
      ensures |blocks| <= BLOCK_COUNT && Tiling(blocks, nextOffset, buffer[..buffered])
    {
      hide Tiling;
      blocks := [];
      NoBlocks(nextOffset);
      assert buffer[..0] == [];
      var from := 0;
      while from < buffered
        invariant 0 <= from <= buffered && Tiling(blocks, nextOffset, buffer[..from])
        invariant from == buffered || from == |blocks| * BLOCK_SIZE
        invariant |blocks| <= BLOCK_COUNT
      {
        var size := buffered - from;
        if size > BLOCK_SIZE { size := BLOCK_SIZE; }
        var piece := buffer[from..from + size];
        assert buffer[..from + size] == buffer[..from] + piece;
        TilingMore(blocks, nextOffset, buffer[..from], piece);
        blocks := blocks + [Block(piece, nextOffset + from)];
        from := from + size;
      }
    }

    /** `snapshot_writer_flush`. */
    method Flush() returns (outcome: Outcome)
      requires Valid()
      modifies this, io
      ensures outcome.Complete? ==> Valid() && buffered == 0 && io.file == Appended() == old(Appended())
      ensures outcome.Failed? ==> io.flying == []
      ensures |old(Appended())| <= INT64_MAX ==> Reported(old(io.trouble), io.trouble, outcome)
    {
      if buffered == 0 { return Complete; }
      if nextOffset + buffered > INT64_MAX { return Failed(EOVERFLOW); }
      var blocks := CutBlocks();
      TilingAcceptable(blocks, nextOffset, buffer[..buffered]);
      outcome := WriteBatch(io, Positional, blocks);
      if !outcome.Complete? { return; }
      TilingAppends(old(io.file), blocks, buffer[..buffered], io.file);
      nextOffset := nextOffset + buffered;
      buffered := 0;
    }

    /** The copy into the free part of the buffer. */
    method Fill(data: ByteString)
      requires Valid() && buffered + |data| <= BUFFER_SIZE
      modifies this`buffered, buffer
      ensures Valid() && Appended() == old(Appended()) + data
    {
      ghost var before := buffer[..buffered];
      forall i | 0 <= i < |data| {
        buffer[buffered + i] := data[i];
      }
      assert buffer[..buffered] == before;
      assert buffer[..buffered + |data|] == before + data;
      assert io.file + (before + data) == io.file + before + data;
      buffered := buffered + |data|;
    }

    /** `snapshot_writer_append`. */
    method Append(data: ByteString) returns (outcome: Outcome)
      requires Valid()
      modifies this, io, buffer
      ensures outcome.Complete? ==> Valid() && Appended() == old(Appended()) + data
      ensures outcome.Failed? ==> io.flying == []
      ensures |old(Appended())| + |data| <= INT64_MAX ==> Reported(old(io.trouble), io.trouble, outcome)
    {
      var copied := 0;
      assert old(Appended()) + data[..0] == old(Appended());
      while copied < |data|
        invariant 0 <= copied <= |data| && Valid() && Appended() == old(Appended()) + data[..copied]
        invariant |old(Appended())| + |data| <= INT64_MAX ==> io.trouble == old(io.trouble)
      {
        if buffered == BUFFER_SIZE {
          outcome := Flush();
          if !outcome.Complete? { return; }
        }
        var size := BUFFER_SIZE - buffered;
        if |data| - copied < size { size := |data| - copied; }
        Fill(data[copied..copied + size]);
        assert data[..copied] + data[copied..copied + size] == data[..copied + size];
        assert old(Appended()) + data[..copied] + data[copied..copied + size]
               == old(Appended()) + (data[..copied] + data[copied..copied + size]);
        copied := copied + size;
      }
      assert data[..copied] == data;
      return Complete;
    }

    /** Appending bytes that also enter the checksum. */
    method AppendSummed(data: ByteString, crc: Word) returns (outcome: Outcome, next: Word)
      requires Valid()
      modifies this, io, buffer
      ensures outcome.Complete? ==> Valid() && Appended() == old(Appended()) + data && next == Update(crc, data)
      ensures outcome.Failed? ==> io.flying == []
      ensures |old(Appended())| + |data| <= INT64_MAX ==> Reported(old(io.trouble), io.trouble, outcome)
    {
      next := crc;
      outcome := Append(data);
      if outcome.Complete? {
        next := UpdateLoop(crc, data);
      }
    }

    /** `snapshot_write_record`: record header, key, value. */
    method WriteRecord(r: Record, crc: Word) returns (outcome: Outcome, next: Word)
      requires Valid()
      modifies this, io, buffer
      ensures outcome.Complete? ==>
                && Valid() && |r.key| < UINT32_END && |r.value| < UINT32_END
                && Appended() == old(Appended()) + RecordBytes(r) && next == Update(crc, RecordBytes(r))
      ensures outcome.Failed? ==> io.flying == []
      ensures |r.key| < UINT32_END && |r.value| < UINT32_END && |old(Appended())| + |RecordBytes(r)| <= INT64_MAX ==>
                Reported(old(io.trouble), io.trouble, outcome)
    {
      hide Update, BigEndian;
      next := crc;
      if |r.key| >= UINT32_END || |r.value| >= UINT32_END { return Failed(EINVAL), next; }
      outcome, next := AppendSummed(RecordHeader(r), next);
      if !outcome.Complete? { return; }
      outcome, next := AppendSummed(r.key, next);
      if !outcome.Complete? { return; }
      outcome, next := AppendSummed(r.value, next);
      if !outcome.Complete? { return; }
      UpdateAppend(crc, RecordHeader(r), r.key);
      UpdateAppend(crc, RecordHeader(r) + r.key, r.value);
      assert old(Appended()) + RecordHeader(r) + r.key + r.value == old(Appended()) + RecordBytes(r);
    }

    /** The traversal of one engine by `snapshot_write_records`. */
    method WriteRecords(records: seq<Record>, crc: Word) returns (outcome: Outcome, next: Word)
      requires Valid()
      modifies this, io, buffer
      ensures outcome.Complete? ==>
                && Valid() && Appended() == old(Appended()) + RecordsBytes(records)
                && next == Update(crc, RecordsBytes(records))
                && ShortFields(records)
      ensures outcome.Failed? ==> io.flying == []
      ensures ShortFields(records) && |old(Appended())| + |RecordsBytes(records)| <= INT64_MAX ==>
                Reported(old(io.trouble), io.trouble, outcome)
    {
      hide Update, RecordBytes, RecordsBytes;
      ghost var before := Appended();
      next := crc;
      NoRecords(before, crc);
      for i := 0 to |records|
        invariant Valid() && Appended() == before + RecordsBytes(records[..i])
                  && next == Update(crc, RecordsBytes(records[..i]))
        invariant forall k :: 0 <= k < i ==> |records[k].key| < UINT32_END && |records[k].value| < UINT32_END
        invariant ShortFields(records) && |before| + |RecordsBytes(records)| <= INT64_MAX ==>
                    io.trouble == old(io.trouble)
      {
        RecordsGrow(records, i);
        outcome, next := WriteRecord(records[i], next);
        if !outcome.Complete? { return; }
        NextRecord(before, crc, records, i);
      }
      assert records[..|records|] == records;
      outcome := Complete;
    }

    /** `snapshot_count_records`: one visitor call for each binding, refused beyond 64 bits. */
    static method CountListing(l: Listing, before: nat) returns (ok: bool, count: nat)
      requires before < UINT64_END
      ensures ok <==> before + |l.keys| < UINT64_END
      ensures ok ==> count == before + |l.keys|
    {
      count := before;
      for i := 0 to |l.keys|
        invariant count == before + i < UINT64_END
      {
        if count == UINT64_END - 1 { return false, count; }
        count := count + 1;
      }
      return true, count;
    }

    static method CountRecords(ls: Listings) returns (ok: bool, count: nat)
      requires Paired(ls)
      ensures ok <==> |AllRecords(ls)| < UINT64_END
      ensures ok ==> count == |AllRecords(ls)|
    {
      ok, count := CountListing(ls.arrayList, 0);
      if !ok { return; }
      ok, count := CountListing(ls.treeList, count);
      if !ok { return; }
      ok, count := CountListing(ls.hashList, count);
      if !ok { return; }
      ok, count := CountListing(ls.skipList, count);
    }

    /** The records of the four engines, one traversal after the other. */
    method WriteEngines(ls: Listings, crc: Word) returns (outcome: Outcome, next: Word)
      requires Valid() && Paired(ls)
      modifies this, io, buffer
      ensures outcome.Complete? ==>
                && Valid() && Appended() == old(Appended()) + RecordsBytes(AllRecords(ls))
                && next == Update(crc, RecordsBytes(AllRecords(ls)))
                && ShortFields(AllRecords(ls))
      ensures outcome.Failed? ==> io.flying == []
      ensures ShortFields(AllRecords(ls)) && |old(Appended())| + |RecordsBytes(AllRecords(ls))| <= INT64_MAX ==>
                Reported(old(io.trouble), io.trouble, outcome)
    {
      hide Update, RecordBytes, RecordsBytes, RecordsOf, ShortFields;
      ghost var before := Appended();
      var a, b := RecordsOf(ArrayEngine, ls.arrayList), RecordsOf(TreeEngine, ls.treeList);
      var c, d := RecordsOf(HashEngine, ls.hashList), RecordsOf(SkipEngine, ls.skipList);
      FourParts(a, b, c, d);
      outcome, next := WriteRecords(a, crc);
      if !outcome.Complete? { return; }
      outcome, next := WriteRecords(b, next);
      if !outcome.Complete? { return; }
      MoreRecords(before, crc, a, b);
      outcome, next := WriteRecords(c, next);
      if !outcome.Complete? { return; }
      MoreRecords(before, crc, a + b, c);
      outcome, next := WriteRecords(d, next);
      if !outcome.Complete? { return; }
      MoreRecords(before, crc, a + b + c, d);
    }

    /** `snapshot_write_contents`: the number of bindings in the header, the records of the four
        engines, checksum, and the rest of the buffer. */
    method WriteContents(ls: Listings, checkpoint: Option<nat>) returns (outcome: Outcome)
      requires Valid() && Paired(ls)
      modifies this, io, buffer
      ensures outcome.Complete? ==> Valid() && io.file == old(Appended()) + FileBytes(AllRecords(ls), checkpoint)
      ensures outcome.Complete? ==> |AllRecords(ls)| < UINT64_END && ShortFields(AllRecords(ls))
      ensures outcome.Failed? ==> io.flying == []
      ensures |AllRecords(ls)| < UINT64_END && ShortFields(AllRecords(ls))
              && |old(Appended())| + |FileBytes(AllRecords(ls), checkpoint)| <= INT64_MAX ==>
                Reported(old(io.trouble), io.trouble, outcome)
    {
      hide Update, HeaderBytes, RecordsBytes, WordBytes, Xor, AllRecords, ShortFields;
      FileSize(AllRecords(ls), checkpoint);
      ghost var before := Appended();
      var counted, count := CountRecords(ls);
      if !counted { return Failed(EOVERFLOW); }
      var crc: Word := ONES;
      outcome, crc := AppendSummed(HeaderBytes(count, checkpoint), crc);
      if !outcome.Complete? { return; }
      outcome, crc := WriteEngines(ls, crc);
      if !outcome.Complete? { return; }
      outcome := Append(WordBytes(Xor(crc, ONES)));
      if !outcome.Complete? { return; }
      ContentsAre(before, AllRecords(ls), checkpoint);
      outcome := Flush();
    }
  }

  lemma FileSize(records: seq<Record>, checkpoint: Option<nat>)
    ensures |FileBytes(records, checkpoint)| == |HeaderBytes(|records|, checkpoint)| + |RecordsBytes(records)| + 4
  {
    hide HeaderBytes, RecordsBytes;
  }

  /** The four traversals are parts of the whole, and so are their bytes. */
  lemma FourParts(a: seq<Record>, b: seq<Record>, c: seq<Record>, d: seq<Record>)
    ensures |RecordsBytes(a)| + |RecordsBytes(b)| + |RecordsBytes(c)| + |RecordsBytes(d)|
            == |RecordsBytes(a + b + c + d)|
    ensures ShortFields(a + b + c + d) ==> ShortFields(a) && ShortFields(b) && ShortFields(c) && ShortFields(d)
  {
    hide RecordsBytes;
    RecordsAppend(a, b);
    RecordsAppend(a + b, c);
    RecordsAppend(a + b + c, d);
    var all := a + b + c + d;
    if ShortFields(all) {
      assert a == all[..|a|] && b == all[|a|..|a| + |b|];
      assert c == all[|a| + |b|..|a| + |b| + |c|] && d == all[|a| + |b| + |c|..];
    }
  }

  /** The lengths fit their 32-bit fields. */
  predicate ShortFields(records: seq<Record>) {
    forall i :: 0 <= i < |records| ==> |records[i].key| < UINT32_END && |records[i].value| < UINT32_END
  }

  /** The records of one more engine. */
  lemma MoreRecords(before: ByteString, crc: Word, done: seq<Record>, more: seq<Record>)
    ensures before + RecordsBytes(done) + RecordsBytes(more) == before + RecordsBytes(done + more)
    ensures Update(Update(crc, RecordsBytes(done)), RecordsBytes(more)) == Update(crc, RecordsBytes(done + more))
    ensures ShortFields(done) && ShortFields(more) ==> ShortFields(done + more)
  {
    hide RecordsBytes, Update;
    RecordsAppend(done, more);
    Regroup(before, RecordsBytes(done), RecordsBytes(more));
    UpdateAppend(crc, RecordsBytes(done), RecordsBytes(more));
  }

  lemma RecordsGrow(records: seq<Record>, i: nat)
    requires i < |records|
    ensures |RecordsBytes(records[..i])| + |RecordBytes(records[i])| <= |RecordsBytes(records)|
  {
    hide RecordBytes;
    RecordsAppend(records[..i], records[i..]);
    assert records[..i] + records[i..] == records;
  }

  lemma NoRecords(before: ByteString, crc: Word)
    ensures before + RecordsBytes([]) == before && Update(crc, RecordsBytes([])) == crc
  {
  }

  /** Header, records and checksum as one file. */
  lemma ContentsAre(before: ByteString, records: seq<Record>, checkpoint: Option<nat>)
    ensures var header, body := HeaderBytes(|records|, checkpoint), RecordsBytes(records);
            var crc := Update(Update(ONES, header), body);
            before + header + body + WordBytes(Xor(crc, ONES)) == before + FileBytes(records, checkpoint)
  {
    hide HeaderBytes, RecordsBytes, Update, WordBytes, Xor;
    var header, body := HeaderBytes(|records|, checkpoint), RecordsBytes(records);
    UpdateAppend(ONES, header, body);
    var sum := WordBytes(Checksum(header + body));
    Regroup(before, header, body);
    Regroup(before, header + body, sum);
  }

  lemma {:induction false} RecordsAppend(a: seq<Record>, b: seq<Record>)
    ensures RecordsBytes(a + b) == RecordsBytes(a) + RecordsBytes(b)
    decreases |a|
  {
    hide RecordBytes;
    if a == [] {
      assert a + b == b;
    } else {
      assert (a + b)[1..] == a[1..] + b;
      RecordsAppend(a[1..], b);
    }
  }

  lemma NextRecord(before: ByteString, crc: Word, records: seq<Record>, i: nat)
    requires i < |records|
    ensures var done, more := RecordsBytes(records[..i]), RecordBytes(records[i]);
            && before + done + more == before + RecordsBytes(records[..i + 1])
            && Update(Update(crc, done), more) == Update(crc, RecordsBytes(records[..i + 1]))
  {
    hide RecordBytes, Update;
    assert records[..i + 1] == records[..i] + [records[i]];
    RecordsAppend(records[..i], [records[i]]);
    assert RecordsBytes([records[i]]) == RecordBytes(records[i]) + RecordsBytes([records[i]][1..]);
    var done, more := RecordsBytes(records[..i]), RecordBytes(records[i]);
    assert RecordsBytes(records[..i + 1]) == done + more;
    Regroup(before, done, more);
    UpdateAppend(crc, done, more);
  }

  lemma SplitPrefix(data: ByteString, prefix: ByteString)
    requires |data| >= 12 && prefix == data[0..12]
    ensures prefix[..8] == data[..8] && prefix[8..] == data[8..12]
  {
  }

  lemma SplitBody(data: ByteString, body: ByteString)
    requires |data| >= 32 && body == data[12..32]
    ensures body[..4] == data[12..16] && body[4..12] == data[16..24] && body[12..] == data[24..32]
  {
  }

  // ------------------------------------------------------------------- the cursor

  /** `snapshot_read_cursor_t` over a mapped file. */
  class Cursor {
    const data: ByteString
    var offset: nat
    var checkpoint: Option<nat>

    constructor (data: ByteString)
      ensures this.data == data && offset == 0 && checkpoint == None
    {
      this.data, offset, checkpoint := data, 0, None;
    }

    /** `snapshot_cursor_take`. */
    method Take(length: nat) returns (ok: bool, view: ByteString)
      requires offset <= |data|
      modifies this`offset
      ensures ok <==> length <= |data| - old(offset)
      ensures ok ==> offset == old(offset) + length <= |data| && view == data[old(offset)..offset]
      ensures !ok ==> offset == old(offset)
    {
      if length > |data| - offset { return false, []; }
      view := data[offset..offset + length];
      offset := offset + length;
      return true, view;
    }

    /** `snapshot_read_header` from the start of the file. */
    method TakeHeader(crc: Word) returns (ok: bool, count: nat, next: Word)
      requires offset == 0
      modifies this
      ensures ok <==> ReadHeader(data).Some?
      ensures ok ==>
                ReadHeader(data) == Some(Header(count, checkpoint, offset)) && offset <= |data|
                && next == Update(crc, data[..offset])
    {
      hide Update, FromBigEndian;
      ok, count, next := false, 0, crc;
      var taken, prefix := Take(12);
      if !taken { return; }
      if prefix[..8] != MAGIC { return; }
      var version := FromBigEndian(prefix[8..]);
      SplitPrefix(data, prefix);
      var size;
      if version == 1 { size := 20; }
      else if version == 2 { size := 32; }
      else { return; }
      var body;
      taken, body := Take(size - 12);
      if !taken { return; }
      var found: Option<nat> := None;
      if version == 1 {
        count := FromBigEndian(body);
      } else {
        SplitBody(data, body);
        var flags, at := FromBigEndian(body[..4]), FromBigEndian(body[12..]);
        if flags > 1 || at > INT64_MAX { return; }
        if flags == 1 { found := Some(at); }
        if flags == 0 && at != 0 { return; }
        count := FromBigEndian(body[4..12]);
      }
      next := UpdateLoop(crc, prefix);
      next := UpdateLoop(next, body);
      UpdateAppend(crc, prefix, body);
      assert prefix + body == data[..offset];
      checkpoint := found;
      ok := true;
    }

    /** `snapshot_check_field`. */
    method CheckField(length: nat, crc: Word) returns (ok: bool, next: Word, ghost field: ByteString)
      requires offset <= |data|
      modifies this`offset
      ensures ok <==> length <= |data| - old(offset) && NulFree(data[old(offset)..old(offset) + length])
      ensures ok ==>
                offset == old(offset) + length <= |data| && field == data[old(offset)..offset]
                && next == Update(crc, field)
      ensures !ok ==> old(offset) <= offset <= |data|
    {
      hide Update;
      next, field := crc, [];
      var taken, view := Take(length);
      if !taken { return false, next, field; }
      field := view;
      if exists i :: 0 <= i < |view| && view[i] == 0 { return false, next, field; }
      next := UpdateLoop(crc, view);
      return true, next, field;
    }

    /** `snapshot_check_record`. */
    method CheckOneRecord(crc: Word) returns (ok: bool, next: Word)
      requires offset <= |data|
      modifies this`offset
      ensures ok <==> CheckRecord(data, old(offset)).Some?
      ensures ok ==>
                CheckRecord(data, old(offset)) == Some(offset) && old(offset) <= offset <= |data|
                && next == Update(crc, data[old(offset)..offset])
    {
      hide Update, FromBigEndian;
      ghost var start := offset;
      next := crc;
      var taken, header := Take(9);
      if !taken { return false, next; }
      SplitRecord(data, start, header);
      if header[0] < 1 || header[0] > 4 { return false, next; }
      var keyLength, valueLength := FromBigEndian(header[1..5]), FromBigEndian(header[5..9]);
      next := UpdateLoop(next, header);
      ghost var key, value;
      ok, next, key := CheckField(keyLength, next);
      if !ok { return; }
      ok, next, value := CheckField(valueLength, next);
      if !ok { return; }
      UpdateAppend(crc, header, key);
      UpdateAppend(crc, header + key, value);
      JoinRecord(data, start, start + 9 + keyLength, offset);
    }

    /** `snapshot_validate`. */
    method ValidateFile() returns (ok: bool)
      modifies this
      ensures ok <==> Snapshot.Validate(data).Some?
      ensures ok ==> checkpoint == Snapshot.Validate(data).value.checkpoint
    {
      hide Update, ReadHeader, CheckRecord, BytesWord;
      if |data| < 24 { return false; }
      offset := 0;
      var crc: Word := ONES;
      var count;
      ok, count, crc := TakeHeader(crc);
      if !ok { return; }
      ghost var size := offset;
      var remaining := |data| - offset;
      if remaining < 4 { return false; }
      if count > (remaining - 4) / 9 { return false; }
      for i := 0 to count
        invariant size <= offset <= |data| && crc == Update(ONES, data[..offset])
        invariant CheckRecords(data, size, count) == CheckRecords(data, offset, count - i)
        invariant checkpoint == ReadHeader(data).value.checkpoint
      {
        ghost var start := offset;
        ok, crc := CheckOneRecord(crc);
        if !ok { return; }
        UpdateAppend(ONES, data[..start], data[start..offset]);
        assert data[..start] + data[start..offset] == data[..offset];
      }
      ghost var end := offset;
      var taken, sum := Take(4);
      if !taken { return false; }
      if Xor(crc, ONES) != BytesWord(sum) { return false; }
      return offset == |data|;
    }

    /** `snapshot_load_record`. */
    method LoadOneRecord(stores: Stores) returns (ok: bool, after: Stores)
      requires offset <= |data|
      modifies this`offset
      ensures ok <==>
                ReadRecord(data, old(offset)).Some? && Insert(stores, ReadRecord(data, old(offset)).value.record).Some?
      ensures ok ==>
                offset == ReadRecord(data, old(offset)).value.end <= |data|
                && Some(after) == Insert(stores, ReadRecord(data, old(offset)).value.record)
    {
      hide FromBigEndian, RunSet;
      ghost var start := offset;
      after := stores;
      var taken, header := Take(9);
      if !taken { return false, after; }
      SplitRecord(data, start, header);
      if header[0] < 1 || header[0] > 4 { return false, after; }
      var keyLength, valueLength := FromBigEndian(header[1..5]), FromBigEndian(header[5..9]);
      var key, value;
      taken, key := Take(keyLength);
      if !taken { return false, after; }
      taken, value := Take(valueLength);
      if !taken { return false, after; }
      var engine := EngineOfCode(header[0]).value;
      if key in TableOf(stores, engine) { return false, after; }
      var result := RunSet(engine, TableOf(stores, engine), key, value);
      if result.code != 0 { return false, after; }
      return true, WithTable(stores, engine, result.table);
    }

    /** `kvs_snapshot_store_load_with_checkpoint` on a mapped file, into empty engines. */
    method LoadFile() returns (loaded: Loaded)
      modifies this
      ensures loaded == Load(data)
    {
      hide Update, ReadHeader, ReadRecord, Insert, Snapshot.Validate;
      var valid := ValidateFile();
      if !valid { return LoadFailed; }
      ValidatedHeader(data);
      offset := 0;
      var ok, count, crc := TakeHeader(ONES);
      if !ok { return LoadFailed; }
      ghost var size := offset;
      var stores := EMPTY;
      for i := 0 to count
        invariant offset <= |data| && Snapshot.Validate(data) == Some(Header(count, checkpoint, size))
        invariant LoadRecords(data, size, count, EMPTY) == LoadRecords(data, offset, count - i, stores)
      {
        ok, stores := LoadOneRecord(stores);
        if !ok { return LoadFailed; }
      }
      return Loaded(stores, checkpoint);
    }
  }

  lemma ValidatedHeader(data: ByteString)
    requires Snapshot.Validate(data).Some?
    ensures ReadHeader(data) == Snapshot.Validate(data)
  {
    hide ReadHeader, CheckRecords, Checksum;
  }

  lemma SplitRecord(data: ByteString, start: nat, header: ByteString)
    requires start + 9 <= |data| && header == data[start..start + 9]
    ensures header[0] == data[start] && header[1..5] == data[start + 1..start + 5]
            && header[5..9] == data[start + 5..start + 9]
  {
    assert forall i :: 0 <= i < 9 ==> header[i] == data[start + i];
    assert header[1..5] == data[start + 1..start + 5];
    assert header[5..9] == data[start + 5..start + 9];
  }

  lemma JoinRecord(data: ByteString, start: nat, middle: nat, end: nat)
    requires start + 9 <= middle <= end <= |data|
    ensures data[start..start + 9] + data[start + 9..middle] + data[middle..end] == data[start..end]
  {
  }

  /** A sorted traversal that has the bindings of a table lists it: what the tree and the skip
      list hand over. */
  lemma SortedLists(keys: seq<ByteString>, values: seq<ByteString>)
    requires |keys| == |values| && Strings.Sorted(keys)
    ensures Lists(Listing(keys, values), Strings.Bindings(keys, values))
  {
    hide Strings.Sorted, Strings.Bindings;
    Strings.BindingsFacts(keys, values);
    forall i, j | 0 <= i < j < |keys| ensures keys[i] != keys[j] {
      if keys[i] == keys[j] {
        Strings.SortedDistinct(keys, i, j);
      }
    }
  }

  /** Saving into a new file through the buffered writer, and loading the mapped file at the next
      start: a save that completes gives back the same engines and checkpoint. */
  method SaveThenLoad(io: Ring, ls: Listings, checkpoint: Option<nat>, ghost s: Stores)
    returns (outcome: Outcome, loaded: Loaded)
    requires io.initialized && io.flying == [] && io.prepared == [] && io.file == []
    requires ListsAll(ls, s) && TextOnly(s) && |s.arrayTable| <= ARRAY_SIZE
    requires checkpoint.Some? ==> checkpoint.value <= INT64_MAX
    modifies io
    ensures outcome.Complete? ==> loaded == Loaded(s, checkpoint)
    ensures Paired(ls)
    ensures |AllRecords(ls)| < UINT64_END && ShortFields(AllRecords(ls))
            && |FileBytes(AllRecords(ls), checkpoint)| <= INT64_MAX ==>
              Reported(old(io.trouble), io.trouble, outcome)
  {
    hide ListsAll, Enumerates, AllRecords, FileBytes, Load, TextOnly, Savable;
    loaded := LoadFailed;
    ListingsEnumerate(ls, s);
    var writer := new BufferedWriter(io);
    outcome := writer.WriteContents(ls, checkpoint);
    if !outcome.Complete? { return; }
    assert io.file == FileBytes(AllRecords(ls), checkpoint);
    EnumerationSavable(AllRecords(ls), s, checkpoint);
    SaveLoad(AllRecords(ls), s, checkpoint);
    var cursor := new Cursor(io.file);
    loaded := cursor.LoadFile();
  }
}
