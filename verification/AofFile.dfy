/** The open append-only file (src/persistence/aof.c): the writer over io_uring, the range
    reader, and the replay loop. */
module AofFile {
  import opened Bytes
  import opened Codec
  import opened Store
  import opened Aof
  import opened Uring

  /** One block at the end of the file. */
  lemma AppendedBlock(file: ByteString, offset: nat, data: ByteString, after: ByteString)
    requires offset <= |file| && data != [] && Patched(file, [Block(data, offset)], after)
    ensures offset + |data| <= |after| && after[..offset + |data|] == file[..offset] + data
    ensures offset == |file| ==> after == file + data
  {
    BlockLength(file, offset, data, after);
    BlockBytes(file, offset, data, after);
    hide Patched;
    SameBytes(file, offset, data, after[..offset + |data|]);
    if offset == |file| {
      assert after == after[..offset + |data|] && file[..offset] == file;
    }
  }

  lemma SameBytes(file: ByteString, offset: nat, data: ByteString, head: ByteString)
    requires offset <= |file| && |head| == offset + |data|
    requires forall p :: 0 <= p < offset ==> head[p] == file[p]
    requires forall p :: 0 <= p < |data| ==> head[offset + p] == data[p]
    ensures head == file[..offset] + data
  {
    assert head == head[..offset] + head[offset..];
    assert head[..offset] == file[..offset] && head[offset..] == data;
  }

  lemma BlockLength(file: ByteString, offset: nat, data: ByteString, after: ByteString)
    requires offset <= |file| && data != [] && Patched(file, [Block(data, offset)], after)
    ensures offset + |data| <= |after| && (offset == |file| ==> |after| == offset + |data|)
  {
    var blocks := [Block(data, offset)];
    FurthestIs(blocks, 0);
    var k := FurthestReached(blocks);
  }

  lemma BlockBytes(file: ByteString, offset: nat, data: ByteString, after: ByteString)
    requires offset <= |file| && data != [] && Patched(file, [Block(data, offset)], after)
    requires offset + |data| <= |after|
    ensures forall p :: 0 <= p < offset ==> after[p] == file[p]
    ensures forall p :: 0 <= p < |data| ==> after[offset + p] == data[p]
  {
    var blocks := [Block(data, offset)];
    forall p | 0 <= p < offset ensures after[p] == file[p] {
      assert Free(blocks, p);
    }
    forall p | 0 <= p < |data| ensures after[offset + p] == data[p] {
      assert Covers(blocks[0], offset + p);
    }
  }

  /** `aof_writer_t`: the next command goes to `offset`. */
  class AofWriter {
    const io: Ring
    var offset: nat

    ghost predicate Valid()
      reads this, io
    {
      io.initialized && io.flying == [] && io.prepared == [] && offset <= |io.file| && offset <= INT64_MAX
    }

    /** The log: the bytes up to the append position. */
    ghost function Logged(): ByteString
      requires Valid()
      reads this, io
    {
      io.file[..offset]
    }

    /** `kvs_aof_open` on an existing file: appending goes on at its end. */
    constructor (io: Ring)
      requires io.initialized && io.flying == [] && io.prepared == [] && |io.file| <= INT64_MAX
      ensures Valid() && Logged() == io.file && this.io == io && offset == |io.file|
    {
      this.io := io;
      offset := |io.file|;
    }

    /** `kvs_aof_append`: on success exactly one canonical command longer, written and synced;
        a failed append moves no position and loses nothing logged before. */
    method Append(fields: Fields) returns (outcome: Outcome)
      requires Valid() && forall i :: 0 <= i < |fields| ==> |fields[i]| <= SIZE_MAX
      modifies this, io
      ensures outcome.Complete? ==>
                Valid() && (|fields| == 2 || |fields| == 3) && Logged() == old(Logged()) + EncodeCommand(fields)
      ensures outcome.Complete? && old(offset == |io.file|) ==>
                offset == |io.file| && io.file == old(io.file) + EncodeCommand(fields)
      ensures outcome.Failed? ==>
                io.flying == [] && offset == old(offset) <= |io.file| && io.file[..offset] == old(Logged())
      ensures |fields| != 2 && |fields| != 3 ==> outcome == Failed(EINVAL)
      ensures (|fields| == 2 || |fields| == 3) && old(offset) + |EncodeCommand(fields)| > INT64_MAX ==>
                outcome == Failed(EOVERFLOW)
      ensures (|fields| == 2 || |fields| == 3) && old(offset) + |EncodeCommand(fields)| <= INT64_MAX ==>
                Reported(old(io.trouble), io.trouble, outcome)
    {
      hide EncodeCommand, Patched, OutsideKept, Acceptable;
      if |fields| != 2 && |fields| != 3 { return Failed(EINVAL); }
      var size := EncodedSize(fields);
      if size.Overflow? { return Failed(EOVERFLOW); }
      var encoded := new Byte[size.count](_ => 0);
      var _, written := WriteCommand(fields, encoded);
      EncodedNonEmpty(fields);
      assert encoded[..] == EncodeCommand(fields);
      if offset + written > INT64_MAX { return Failed(EOVERFLOW); }
      ghost var before := io.file;
      var block := Block(encoded[..], offset);
      OneBlock(block);
      outcome := WriteBatch(io, Positional, [block]);
      if outcome.Failed? { KeptBefore(before, block, io.file); }
      if !outcome.Complete? { return; }
      AppendedBlock(before, offset, encoded[..], io.file);
      ghost var after := io.file;
      outcome := Sync(io, Positional);
      if outcome.Failed? {
        assert io.file[..offset] == io.file[..|after|][..offset] == after[..offset] == before[..offset];
      }
      if !outcome.Complete? { return; }
      offset := offset + written;
    }

    /** `kvs_aof_reset_to_offset`: `ftruncate`, whose error is `refusal` if it fails, then sync. The
        append position follows the new length even when the sync fails. */
    method ResetTo(target: int, refusal: Option<int>) returns (outcome: Outcome)
      requires Valid()
      modifies this, io
      ensures outcome.Complete? ==>
                Valid() && target >= 0 && offset == target && io.file == Truncate(old(io.file), target)
      ensures outcome.Failed? && 0 <= target <= INT64_MAX && refusal.None? ==> io.flying == [] && offset == target
      ensures target < 0 || target > INT64_MAX || refusal.Some? ==>
                && Valid() && io.file == old(io.file) && offset == old(offset)
                && outcome
                   == Failed(if target < 0 then EINVAL else if target > INT64_MAX then EOVERFLOW else refusal.value)
      ensures 0 <= target <= INT64_MAX && refusal.None? ==> Reported(old(io.trouble), io.trouble, outcome)
    {
      if target < 0 { return Failed(EINVAL); }
      if target > INT64_MAX { return Failed(EOVERFLOW); }
      if refusal.Some? { return Failed(refusal.value); }
      io.file := Truncate(io.file, target);
      offset := target;
      outcome := Sync(io, Positional);
    }
  }

  lemma OneBlock(block: Block)
    requires block.offset >= 0 && block.offset + |block.data| <= INT64_MAX
    ensures Acceptable([block])
  {
  }

  lemma KeptBefore(before: ByteString, block: Block, file: ByteString)
    requires OutsideKept(before, [block], file) && 0 <= block.offset <= |before|
    ensures block.offset <= |file| && file[..block.offset] == before[..block.offset]
  {
    forall p | 0 <= p < block.offset ensures file[p] == before[p] {
      assert Free([block], p);
    }
  }

  // ------------------------------------------------------------------- the reader

  /** `kvs_aof_reader_t`: what is left of the range that was fixed when it was opened. */
  class AofRangeReader {
    var isOpen: bool
    var offset: nat
    var remaining: nat

    constructor ()
      ensures !isOpen
    {
      isOpen, offset, remaining := false, 0, 0;
    }

    /** `kvs_aof_reader_open` for a file of `size` bytes. */
    method Open(size: nat, start: int, end: int) returns (ok: bool)
      modifies this
      ensures ok <==> 0 <= start <= end <= size
      ensures isOpen == ok
      ensures ok ==> offset == start && remaining == end - start
    {
      isOpen, offset, remaining := false, 0, 0;
      if start < 0 || end < start { return false; }
      if start > size || end > size { return false; }
      isOpen, offset, remaining := true, start, end - start;
      return true;
    }

    /** `kvs_aof_reader_read` when `pread` returns `result`: nothing at the end of the range;
        otherwise exactly the next bytes; refused exactly without room, on an error, or at an end
        of file before the end of the range. */
    method Read(file: ByteString, capacity: nat, result: int) returns (ok: bool, bytes: ByteString)
      requires isOpen
      requires offset + result <= |file| && result <= capacity && result <= remaining
      modifies this`offset, this`remaining
      ensures offset + remaining == old(offset + remaining)
      ensures ok <==> capacity > 0 && (old(remaining) == 0 || result > 0)
      ensures ok ==> offset == old(offset) + (if old(remaining) == 0 then 0 else result)
      ensures ok ==> bytes == if old(remaining) == 0 then [] else file[old(offset)..offset]
      ensures !ok ==> offset == old(offset) && bytes == []
    {
      if capacity == 0 { return false, []; }
      if remaining == 0 { return true, []; }
      if result <= 0 { return false, []; }
      bytes := file[offset..offset + result];
      offset := offset + result;
      remaining := remaining - result;
      return true, bytes;
    }
  }

  // -------------------------------------------------------------------- the replay

  /** `kvs_aof_replay` on a mapped file: the loop over the commands behind `offset`. */
  method ReplayFile(stores: Stores, file: ByteString, offset: int) returns (result: Option<Stores>)
    ensures offset < 0 ==> result == None
    ensures offset >= 0 ==> result == ReplayFrom(stores, file, offset)
  {
    hide Apply, ParseCommand;
    if offset < 0 { return None; }
    var position := |file|;
    if offset < |file| { position := offset; }
    var current := stores;
    assert file[|file|..] == [];
    while position < |file|
      invariant 0 <= position <= |file|
      invariant ReplayFrom(stores, file, offset) == Replay(current, file[position..])
    {
      var rest := file[position..];
      var parsed := ReadCommand(rest, 3, SIZE_MAX);
      match parsed
      case Incomplete => return None;
      case Malformed => return None;
      case Complete(fields, size) =>
        if size == 0 || size > |rest| { return None; }
        match Apply(current, fields)
        case None => return None;
        case Some(after) =>
          current := after;
          assert rest[size..] == file[position + size..];
          position := position + size;
    }
    return Some(current);
  }
}
