/** The io_uring batch writer (src/persistence/uring_io.c): rounds of requests over short
    writes, any completion order, interrupted calls, partial submission and cancellation. */
module Uring {
  import opened Bytes
  import opened Store
  import opened Aof

  const QUEUE_DEPTH: nat := 8
  const EINTR: int := 4
  const EIO: int := 5
  const EBUSY: int := 16
  const EINVAL: int := 22
  const ENOENT: int := 2
  const EOVERFLOW: int := 75

  /** `kvs_uring_write_t`. */
  datatype Block = Block(data: ByteString, offset: int)

  /** A WRITE request as the kernel sees it; `id` is its `user_data`. */
  datatype Request = Request(id: nat, data: ByteString, position: nat)

  // ------------------------------------------------------------- file contents

  predicate Covers(b: Block, p: int) {
    b.offset <= p < b.offset + |b.data|
  }

  /** The blocks write to different places. */
  ghost predicate Disjoint(blocks: seq<Block>) {
    && (forall i :: 0 <= i < |blocks| ==> blocks[i].offset >= 0)
    && forall i, j, p :: 0 <= i < j < |blocks| && Covers(blocks[i], p) ==> !Covers(blocks[j], p)
  }

  /** The end of the furthest write. */
  function Furthest(blocks: seq<Block>): (e: int)
    ensures e >= 0
  {
    if blocks == [] then 0
    else
      var e, b := Furthest(blocks[..|blocks| - 1]), blocks[|blocks| - 1];
      if b.data != [] && b.offset + |b.data| > e then b.offset + |b.data| else e
  }

  lemma {:induction false} FurthestIs(blocks: seq<Block>, i: nat)
    requires i < |blocks| && blocks[i].data != []
    ensures blocks[i].offset + |blocks[i].data| <= Furthest(blocks)
    decreases |blocks|
  {
    if i < |blocks| - 1 {
      FurthestIs(blocks[..|blocks| - 1], i);
    }
  }

  lemma {:induction false} FurthestReached(blocks: seq<Block>) returns (i: nat)
    requires Furthest(blocks) > 0
    ensures i < |blocks| && blocks[i].data != [] && blocks[i].offset + |blocks[i].data| == Furthest(blocks)
    decreases |blocks|
  {
    var front, b := blocks[..|blocks| - 1], blocks[|blocks| - 1];
    if b.data != [] && b.offset + |b.data| > Furthest(front) {
      i := |blocks| - 1;
    } else {
      i := FurthestReached(front);
    }
  }

  /** `file` is `before` with every block's range holding its data; every other byte is as it
      was, and a gap beyond the old end reads as zero. */
  ghost predicate Patched(before: ByteString, blocks: seq<Block>, file: ByteString) {
    && |file| == (if |before| < Furthest(blocks) then Furthest(blocks) else |before|)
    && (forall i, p :: 0 <= i < |blocks| && Covers(blocks[i], p) && 0 <= p < |file| ==>
        file[p] == blocks[i].data[p - blocks[i].offset])
    && (forall p :: 0 <= p < |file| && Free(blocks, p) ==> file[p] == if p < |before| then before[p] else 0)
  }

  /** No block writes the byte at `p`. */
  ghost predicate Free(blocks: seq<Block>, p: int) {
    forall i :: 0 <= i < |blocks| ==> !Covers(blocks[i], p)
  }

  /** The contents after the batch do not depend on the order of the completions. */
  lemma PatchedUnique(before: ByteString, blocks: seq<Block>, a: ByteString, b: ByteString)
    requires Patched(before, blocks, a) && Patched(before, blocks, b)
    ensures a == b
  {
    forall p | 0 <= p < |a| ensures a[p] == b[p] {
      if !Free(blocks, p) {
        var i :| 0 <= i < |blocks| && Covers(blocks[i], p);
      }
    }
  }

  lemma PatchedNothing(before: ByteString, blocks: seq<Block>)
    requires forall i :: 0 <= i < |blocks| ==> blocks[i].data == []
    ensures Patched(before, blocks, before)
  {
    NoFurthest(blocks);
  }

  lemma {:induction false} NoFurthest(blocks: seq<Block>)
    requires forall i :: 0 <= i < |blocks| ==> blocks[i].data == []
    ensures Furthest(blocks) == 0
    decreases |blocks|
  {
    if blocks != [] {
      NoFurthest(blocks[..|blocks| - 1]);
    }
  }

  /** The blocks cut down to what is already written. */
  function Written(blocks: seq<Block>, done: seq<nat>): (r: seq<Block>)
    requires |done| == |blocks| && forall i :: 0 <= i < |blocks| ==> done[i] <= |blocks[i].data|
    ensures |r| == |blocks|
    ensures forall i :: 0 <= i < |blocks| ==> r[i] == Block(blocks[i].data[..done[i]], blocks[i].offset)
  {
    seq(|blocks|, i requires 0 <= i < |blocks| => Block(blocks[i].data[..done[i]], blocks[i].offset))
  }

  lemma FurthestGrows(a: seq<Block>, i: nat, longer: Block)
    requires i < |a| && longer.offset == a[i].offset && |a[i].data| < |longer.data| && longer.offset >= 0
    ensures Furthest(a[i := longer])
            == if Furthest(a) < longer.offset + |longer.data| then longer.offset + |longer.data| else Furthest(a)
  {
    var b := a[i := longer];
    FurthestIs(b, i);
    if Furthest(a) > 0 {
      var k := FurthestReached(a);
      FurthestIs(b, k);
    }
    var k := FurthestReached(b);
    if k != i {
      FurthestIs(a, k);
    }
  }

  ghost predicate Progress(blocks: seq<Block>, done: seq<nat>, i: nat, n: nat) {
    && Disjoint(blocks) && |done| == |blocks| && (forall k :: 0 <= k < |blocks| ==> done[k] <= |blocks[k].data|)
    && i < |blocks| && 0 < n && done[i] + n <= |blocks[i].data|
  }

  /** One completed piece of one block. */
  lemma PatchedMore(before: ByteString, blocks: seq<Block>, done: seq<nat>, i: nat, n: nat, file: ByteString)
    requires Progress(blocks, done, i, n)
    requires Patched(before, Written(blocks, done), file)
    ensures Patched(before, Written(blocks, done[i := done[i] + n]),
                    WriteAt(file, blocks[i].offset + done[i], blocks[i].data[done[i]..done[i] + n]))
  {
    var r := WriteAt(file, blocks[i].offset + done[i], blocks[i].data[done[i]..done[i] + n]);
    var b := Written(blocks, done[i := done[i] + n]);
    MoreLength(before, blocks, done, i, n, file);
    MoreFree(before, blocks, done, i, n, file);
    hide Free, Progress, WriteAt, Furthest;
    forall k, p | 0 <= k < |b| && Covers(b[k], p) && 0 <= p < |r| ensures r[p] == b[k].data[p - b[k].offset] {
      InsideFile(before, blocks, done, i, n, file, k, p);
      PieceByte(blocks, done, i, n, file, k, p);
    }
  }

  lemma InsideFile(before: ByteString, blocks: seq<Block>, done: seq<nat>, i: nat, n: nat, file: ByteString, k: nat,
                   p: nat)
    requires Progress(blocks, done, i, n) && Patched(before, Written(blocks, done), file) && k < |blocks|
    ensures var a := Written(blocks, done); Covers(a[k], p) ==> p < |file| && file[p] == a[k].data[p - a[k].offset]
  {
    var a := Written(blocks, done);
    if Covers(a[k], p) {
      FurthestIs(a, k);
    }
  }

  lemma MoreLength(before: ByteString, blocks: seq<Block>, done: seq<nat>, i: nat, n: nat, file: ByteString)
    requires Progress(blocks, done, i, n)
    requires Patched(before, Written(blocks, done), file)
    ensures var r := WriteAt(file, blocks[i].offset + done[i], blocks[i].data[done[i]..done[i] + n]);
            var e := Furthest(Written(blocks, done[i := done[i] + n]));
            |r| == if |before| < e then e else |before|
  {
    var a, b := Written(blocks, done), Written(blocks, done[i := done[i] + n]);
    assert b == a[i := b[i]];
    FurthestGrows(a, i, b[i]);
    Piece(file, blocks[i].offset + done[i], blocks[i].data[done[i]..done[i] + n]);
  }

  lemma MoreFree(before: ByteString, blocks: seq<Block>, done: seq<nat>, i: nat, n: nat, file: ByteString)
    requires Progress(blocks, done, i, n)
    requires Patched(before, Written(blocks, done), file)
    ensures var r := WriteAt(file, blocks[i].offset + done[i], blocks[i].data[done[i]..done[i] + n]);
            forall p :: 0 <= p < |r| && Free(Written(blocks, done[i := done[i] + n]), p) ==>
                     r[p] == if p < |before| then before[p] else 0
  {
    var from := blocks[i].offset + done[i];
    var r := WriteAt(file, from, blocks[i].data[done[i]..done[i] + n]);
    var a, b := Written(blocks, done), Written(blocks, done[i := done[i] + n]);
    Piece(file, from, blocks[i].data[done[i]..done[i] + n]);
    hide WriteAt, Furthest;
    forall p | 0 <= p < |r| && Free(b, p) ensures r[p] == if p < |before| then before[p] else 0 {
      assert !Covers(b[i], p);
      forall k | 0 <= k < |a| ensures !Covers(a[k], p) {
        assert !Covers(b[k], p);
      }
      assert Free(a, p);
    }
  }

  /** `WriteAt`, byte by byte. */
  lemma Piece(file: ByteString, from: nat, data: ByteString)
    requires data != []
    ensures var r := WriteAt(file, from, data);
            && |r| == (if |file| < from + |data| then from + |data| else |file|)
            && (forall p :: from <= p < from + |data| ==> r[p] == data[p - from])
            && (forall p :: 0 <= p < |r| && !(from <= p < from + |data|) ==> r[p] == if p < |file| then file[p] else 0)
  {
  }

  lemma PieceByte(blocks: seq<Block>, done: seq<nat>, i: nat, n: nat, file: ByteString, k: nat, p: nat)
    requires Progress(blocks, done, i, n) && k < |blocks|
    requires var b := Written(blocks, done[i := done[i] + n]); Covers(b[k], p)
    requires var a := Written(blocks, done); Covers(a[k], p) ==> p < |file| && file[p] == a[k].data[p - a[k].offset]
    ensures var r := WriteAt(file, blocks[i].offset + done[i], blocks[i].data[done[i]..done[i] + n]);
            var b := Written(blocks, done[i := done[i] + n]);
            p < |r| && r[p] == b[k].data[p - b[k].offset]
  {
    var from := blocks[i].offset + done[i];
    Piece(file, from, blocks[i].data[done[i]..done[i] + n]);
    hide WriteAt;
    if k != i {
      assert Covers(blocks[k], p);
      assert !Covers(blocks[i], p);
    }
  }

  /** Nothing outside the blocks changed. */
  ghost predicate OutsideKept(before: ByteString, blocks: seq<Block>, file: ByteString) {
    && |before| <= |file|
    && forall p :: 0 <= p < |before| && Free(blocks, p) ==> file[p] == before[p]
  }

  lemma PatchedOutside(before: ByteString, blocks: seq<Block>, done: seq<nat>, file: ByteString)
    requires |done| == |blocks| && forall i :: 0 <= i < |blocks| ==> done[i] <= |blocks[i].data|
    requires Patched(before, Written(blocks, done), file)
    ensures OutsideKept(before, blocks, file)
  {
    var a := Written(blocks, done);
    forall p | 0 <= p < |before| && Free(blocks, p) ensures file[p] == before[p] {
      forall i | 0 <= i < |a| ensures !Covers(a[i], p) {
        assert !Covers(blocks[i], p);
      }
      assert Free(a, p);
    }
  }

  lemma OutsidePiece(before: ByteString, blocks: seq<Block>, i: nat, from: nat, data: ByteString, file: ByteString)
    requires OutsideKept(before, blocks, file) && i < |blocks|
    requires blocks[i].offset <= from && from + |data| <= blocks[i].offset + |blocks[i].data|
    ensures OutsideKept(before, blocks, WriteAt(file, from, data))
  {
    if data != [] {
      Piece(file, from, data);
      forall p | 0 <= p < |before| && Free(blocks, p) ensures WriteAt(file, from, data)[p] == before[p] {
        assert !Covers(blocks[i], p);
      }
    }
  }

  // ------------------------------------------------------------- the kernel side

  /** What a completed request has done to the file. */
  function Effect(file: ByteString, r: Request, result: int): ByteString {
    if result <= 0 then file
    else WriteAt(file, r.position, if result < |r.data| then r.data[..result] else r.data)
  }

  /** The first of several errors. */
  function First(trouble: Option<int>, error: int): Option<int> {
    if trouble.None? then Some(error) else trouble
  }

  /** Results that are no error: some bytes of a WRITE, nothing of an fsync, or an interruption. */
  predicate Harmless(r: Request, written: int) {
    written == -EINTR || (if r.data == [] then written == 0 else 0 < written <= |r.data|)
  }

  function ErrorOf(result: int): int {
    if result < 0 then -result else EIO
  }

  /** `kvs_uring_io_t` with the kernel behind it: every answer is one the kernel may give.
      `flying` are the submitted requests whose completion was not collected; `interrupts`
      bounds how often a call or a write is still interrupted by a signal; `trouble` records the
      first answer that is neither progress nor an interruption. */
  class Ring {
    var initialized: bool
    var prepared: seq<Request>
    var flying: seq<Request>
    var file: ByteString
    var interrupts: nat
    ghost var trouble: Option<int>

    constructor (file: ByteString, interrupts: nat)
      ensures initialized && prepared == [] && flying == [] && this.file == file && this.interrupts == interrupts
      ensures trouble.None?
    {
      initialized, prepared, flying, trouble := true, [], [], None;
      this.file, this.interrupts := file, interrupts;
    }

    /** `io_uring_get_sqe` and `io_uring_prep_write`. */
    method Prepare(request: Request) returns (ok: bool)
      modifies this`prepared
      ensures ok <==> |old(prepared)| < QUEUE_DEPTH
      ensures prepared == if ok then old(prepared) + [request] else old(prepared)
    {
      if |prepared| >= QUEUE_DEPTH { return false; }
      prepared := prepared + [request];
      return true;
    }

    /** `io_uring_submit`: interrupted, failed, or some of the prepared requests handed over. */
    method Submit() returns (result: int)
      modifies this`prepared, this`flying, this`interrupts, this`trouble
      ensures trouble == if result > 0 || result == -EINTR || old(prepared) == [] then old(trouble)
                         else First(old(trouble), ErrorOf(result))
      ensures result <= |old(prepared)| && interrupts <= old(interrupts)
      ensures result == -EINTR ==> interrupts < old(interrupts)
      ensures result <= 0 ==> prepared == old(prepared) && flying == old(flying)
      ensures result > 0 ==> prepared == old(prepared)[result..] && flying == old(flying) + old(prepared)[..result]
    {
      var choice: int := *;
      if choice == -EINTR {
        if interrupts > 0 {
          interrupts := interrupts - 1;
          return -EINTR;
        }
        choice := -EIO;
      }
      if choice <= 0 {
        trouble := if prepared == [] then trouble else First(trouble, ErrorOf(choice));
        return choice;
      }
      result := if choice <= |prepared| then choice else |prepared|;
      flying := flying + prepared[..result];
      prepared := prepared[result..];
    }

    /** `io_uring_wait_cqe` and `io_uring_cqe_seen`: interrupted, failed, or the completion of
        any one request in flight. */
    method Wait() returns (result: int, id: nat, written: int, ghost which: nat)
      requires flying != []
      modifies this`flying, this`file, this`interrupts, this`trouble
      ensures result <= 0 && interrupts <= old(interrupts)
      ensures result < 0 ==> trouble == if result == -EINTR then old(trouble) else First(old(trouble), -result)
      ensures result == 0 ==>
                && which < |old(flying)|
                && trouble == if Harmless(old(flying)[which], written) then old(trouble)
                              else First(old(trouble), ErrorOf(written))
      ensures result == -EINTR ==> interrupts < old(interrupts)
      ensures result < 0 ==> flying == old(flying) && file == old(file)
      ensures result == 0 ==>
                && which < |old(flying)| && id == old(flying)[which].id
                && flying == old(flying)[..which] + old(flying)[which + 1..]
                && file == Effect(old(file), old(flying)[which], written)
                && (written == -EINTR ==> interrupts < old(interrupts))
    {
      id, which, written := 0, 0, 0;
      var choice: int := *;
      if choice == -EINTR {
        if interrupts > 0 {
          interrupts := interrupts - 1;
          return -EINTR, 0, 0, 0;
        }
        choice := -EIO;
      }
      if choice < 0 {
        trouble := First(trouble, -choice);
        return choice, 0, 0, 0;
      }
      var j: nat :| j < |flying|;
      written := *;
      if written == -EINTR {
        if interrupts == 0 {
          written := -EIO;
        } else {
          interrupts := interrupts - 1;
        }
      }
      var request := flying[j];
      file := Effect(file, request, written);
      trouble := if Harmless(request, written) then trouble else First(trouble, ErrorOf(written));
      flying := flying[..j] + flying[j + 1..];
      return 0, request.id, written, j;
    }

    /** `io_uring_register_sync_cancel`; a cancelled request still has to be collected. */
    method Cancel(id: nat) returns (result: int)
      modifies this`interrupts
      ensures interrupts <= old(interrupts) && (result == -EINTR ==> interrupts < old(interrupts))
    {
      result := *;
      if result == -EINTR {
        if interrupts == 0 { return -ENOENT; }
        interrupts := interrupts - 1;
      }
    }

    /** `io_uring_queue_exit`: only when the kernel no longer uses the caller's buffers. */
    method Close()
      requires flying == []
      modifies this`initialized, this`prepared
      ensures !initialized && prepared == []
    {
      initialized, prepared := false, [];
    }
  }

  // ------------------------------------------------------------- one round

  /** The requests of a round: each is the unwritten part of its own block. */
  ghost predicate Matches(blocks: seq<Block>, done: seq<nat>, asked: seq<nat>, requests: seq<Request>) {
    && |done| == |blocks| == |asked|
    && (forall i :: 0 <= i < |blocks| ==> blocks[i].offset >= 0 && done[i] <= |blocks[i].data|)
    && (forall j :: 0 <= j < |requests| ==> PartOf(blocks, done, asked, requests[j]))
    && (forall j, k :: 0 <= j < k < |requests| ==> requests[j].id != requests[k].id)
  }

  ghost predicate PartOf(blocks: seq<Block>, done: seq<nat>, asked: seq<nat>, r: Request)
    requires |done| == |blocks| == |asked|
  {
    && r.id < |blocks| && asked[r.id] == |r.data| > 0 && done[r.id] + |r.data| <= |blocks[r.id].data|
    && r.position == blocks[r.id].offset + done[r.id]
    && r.data == blocks[r.id].data[done[r.id]..done[r.id] + |r.data|]
  }

  /** `uring_prepare_writes`: -1, or the number of requests prepared. */
  method PrepareWrites(io: Ring, blocks: seq<Block>, done: array<nat>, asked: array<nat>) returns (count: int)
    requires io.prepared == [] && done.Length == |blocks| == asked.Length && done != asked
    requires forall i :: 0 <= i < |blocks| ==> blocks[i].offset >= 0 && done[i] <= |blocks[i].data|
    modifies io`prepared, asked
    ensures done[..] == old(done[..])
    ensures count >= 0 ==> count == |io.prepared| && Matches(blocks, done[..], asked[..], io.prepared)
    ensures count == 0 ==> forall i :: 0 <= i < |blocks| ==> done[i] == |blocks[i].data|
    ensures |blocks| <= QUEUE_DEPTH ==> count >= 0
  {
    hide PartOf, Prepared, Matches;
    count := 0;
    PreparedNothing(blocks, done[..], asked[..]);
    for i := 0 to |blocks|
      invariant done[..] == old(done[..]) && count == |io.prepared| <= i
      invariant count == 0 ==> forall k :: 0 <= k < i ==> done[k] == |blocks[k].data|
      invariant Prepared(blocks, done[..], asked[..], io.prepared, i)
    {
      ghost var before := asked[..];
      asked[i] := 0;
      if done[i] == |blocks[i].data| {
        PreparedSkip(blocks, done[..], before, asked[..], io.prepared, i);
        continue;
      }
      var size: nat := |blocks[i].data| - done[i];
      if size > INT_MAX { size := INT_MAX; }
      var request := Request(i, blocks[i].data[done[i]..done[i] + size], blocks[i].offset + done[i]);
      ghost var earlier := io.prepared;
      var ok := io.Prepare(request);
      if !ok { return -1; }
      asked[i] := size;
      PreparedMore(blocks, done[..], before, asked[..], earlier, i, request);
      count := count + 1;
    }
    PreparedAll(blocks, done[..], asked[..], io.prepared);
  }

  /** The requests prepared for the first `i` blocks. */
  ghost predicate Prepared(blocks: seq<Block>, done: seq<nat>, asked: seq<nat>, requests: seq<Request>, i: nat)
    requires |done| == |blocks| == |asked|
  {
    && (forall j :: 0 <= j < |requests| ==> requests[j].id < i && PartOf(blocks, done, asked, requests[j]))
    && (forall j, k :: 0 <= j < k < |requests| ==> requests[j].id != requests[k].id)
  }

  lemma PreparedNothing(blocks: seq<Block>, done: seq<nat>, asked: seq<nat>)
    requires |done| == |blocks| == |asked|
    ensures Prepared(blocks, done, asked, [], 0)
  {
  }

  lemma PreparedSkip(blocks: seq<Block>, done: seq<nat>, asked: seq<nat>, asked': seq<nat>, requests: seq<Request>,
                     i: nat)
    requires |done| == |blocks| == |asked| && i < |asked| && |asked'| == |asked| && asked' == asked[i := asked'[i]]
    requires Prepared(blocks, done, asked, requests, i)
    ensures Prepared(blocks, done, asked', requests, i + 1)
  {
    forall j | 0 <= j < |requests| ensures PartOf(blocks, done, asked', requests[j]) {
      assert PartOf(blocks, done, asked, requests[j]);
    }
  }

  lemma PreparedMore(blocks: seq<Block>, done: seq<nat>, asked: seq<nat>, asked': seq<nat>, requests: seq<Request>,
                     i: nat, r: Request)
    requires |done| == |blocks| == |asked| && i < |asked| && |asked'| == |asked| && asked' == asked[i := asked'[i]]
    requires Prepared(blocks, done, asked, requests, i)
    requires r.id == i && done[i] + |r.data| <= |blocks[i].data| && asked'[i] == |r.data| > 0
    requires r.position == blocks[i].offset + done[i] && r.data == blocks[i].data[done[i]..done[i] + |r.data|]
    ensures Prepared(blocks, done, asked', requests + [r], i + 1)
  {
    PreparedSkip(blocks, done, asked, asked', requests, i);
    assert PartOf(blocks, done, asked', r);
  }

  lemma PreparedAll(blocks: seq<Block>, done: seq<nat>, asked: seq<nat>, requests: seq<Request>)
    requires |done| == |blocks| == |asked| && Prepared(blocks, done, asked, requests, |blocks|)
    requires forall i :: 0 <= i < |blocks| ==> blocks[i].offset >= 0 && done[i] <= |blocks[i].data|
    ensures Matches(blocks, done, asked, requests)
  {
  }

  /** `uring_submit_prepared`. */
  method SubmitPrepared(io: Ring, count: nat) returns (error: int, submitted: nat)
    requires |io.prepared| == count && io.flying == []
    modifies io`prepared, io`flying, io`interrupts, io`trouble
    ensures error >= 0 && io.trouble == if error == 0 then old(io.trouble) else First(old(io.trouble), error)
    ensures submitted == |io.flying| <= count && io.flying == old(io.prepared)[..submitted]
    ensures error == 0 ==> submitted == count && io.prepared == []
    ensures io.interrupts <= old(io.interrupts)
  {
    error, submitted := 0, 0;
    while submitted < count
      invariant submitted <= count && io.flying == old(io.prepared)[..submitted]
                && io.prepared == old(io.prepared)[submitted..] && io.trouble == old(io.trouble)
      invariant io.interrupts <= old(io.interrupts)
      decreases count - submitted, io.interrupts
    {
      var result := io.Submit();
      if result == -EINTR { continue; }
      if result < 0 { return -result, submitted; }
      if result == 0 { return EIO, submitted; }
      submitted := submitted + result;
    }
  }

  /** `uring_receive_write_result`. */
  method ReceiveResult(io: Ring) returns (error: int, id: nat, written: int, ghost which: nat)
    requires io.flying != []
    modifies io`flying, io`file, io`interrupts, io`trouble
    ensures io.interrupts <= old(io.interrupts)
    ensures error >= 0 && (error != 0 ==> io.trouble == First(old(io.trouble), error))
    ensures error == 0 ==>
              && which < |old(io.flying)|
              && io.trouble == if Harmless(old(io.flying)[which], written) then old(io.trouble)
                               else First(old(io.trouble), ErrorOf(written))
    ensures error != 0 ==> io.flying == old(io.flying) && io.file == old(io.file)
    ensures error == 0 ==>
              && which < |old(io.flying)| && id == old(io.flying)[which].id
              && io.flying == old(io.flying)[..which] + old(io.flying)[which + 1..]
              && io.file == Effect(old(io.file), old(io.flying)[which], written)
              && (written == -EINTR ==> io.interrupts < old(io.interrupts))
  {
    var result: int;
    result, id, written, which := io.Wait();
    while result == -EINTR
      invariant io.interrupts <= old(io.interrupts) && result <= 0
      invariant result < 0 ==> io.flying == old(io.flying) && io.file == old(io.file)
      invariant result < 0 ==>
                  io.trouble == if result == -EINTR then old(io.trouble) else First(old(io.trouble), -result)
      invariant result == 0 ==>
                  && which < |old(io.flying)|
                  && io.trouble == if Harmless(old(io.flying)[which], written) then old(io.trouble)
                                   else First(old(io.trouble), ErrorOf(written))
      invariant result == 0 ==>
                  && which < |old(io.flying)| && id == old(io.flying)[which].id
                  && io.flying == old(io.flying)[..which] + old(io.flying)[which + 1..]
                  && io.file == Effect(old(io.file), old(io.flying)[which], written)
                  && (written == -EINTR ==> io.interrupts < old(io.interrupts))
      decreases io.interrupts, if result == -EINTR then 1 else 0
    {
      result, id, written, which := io.Wait();
    }
    error := -result;
  }

  /** Every request in flight stays inside one of the blocks. */
  ghost predicate Inside(blocks: seq<Block>, requests: seq<Request>) {
    forall j :: 0 <= j < |requests| ==> WithinBlock(blocks, requests[j])
  }

  ghost predicate WithinBlock(blocks: seq<Block>, r: Request) {
    r.id < |blocks| && blocks[r.id].offset <= r.position
    && r.position + |r.data| <= blocks[r.id].offset + |blocks[r.id].data|
  }

  lemma MatchesInside(blocks: seq<Block>, done: seq<nat>, asked: seq<nat>, requests: seq<Request>)
    requires Matches(blocks, done, asked, requests)
    ensures Inside(blocks, requests)
  {
  }

  lemma EffectOutside(before: ByteString, blocks: seq<Block>, file: ByteString, r: Request, result: int)
    requires OutsideKept(before, blocks, file) && WithinBlock(blocks, r)
    ensures OutsideKept(before, blocks, Effect(file, r, result))
  {
    if result > 0 {
      OutsidePiece(before, blocks, r.id, r.position, if result < |r.data| then r.data[..result] else r.data, file);
    }
  }

  lemma InsideWithout(blocks: seq<Block>, requests: seq<Request>, j: nat)
    requires Inside(blocks, requests) && j < |requests|
    ensures Inside(blocks, requests[..j] + requests[j + 1..])
  {
    var rest := requests[..j] + requests[j + 1..];
    forall k | 0 <= k < |rest| ensures WithinBlock(blocks, rest[k]) {
      assert rest[k] == requests[if k < j then k else k + 1];
    }
  }

  /** `uring_abort_requests`: cancels by number, then collects every outstanding completion.
      When either cannot be done reliably the process ends. */
  method AbortRequests(io: Ring, pending: nat, ghost before: ByteString, ghost blocks: seq<Block>) returns (fatal: bool)
    requires pending == |io.flying| && Inside(blocks, io.flying) && OutsideKept(before, blocks, io.file)
    modifies io
    ensures !fatal ==> io.flying == [] && !io.initialized && io.prepared == [] && OutsideKept(before, blocks, io.file)
    ensures old(io.trouble).Some? ==> io.trouble == old(io.trouble)
  {
    if pending > 0 {
      for i := 0 to QUEUE_DEPTH
        invariant io.flying == old(io.flying) && io.file == old(io.file) && io.trouble == old(io.trouble)
      {
        var result := io.Cancel(i);
        while result == -EINTR
          invariant io.flying == old(io.flying) && io.file == old(io.file) && io.trouble == old(io.trouble)
          decreases io.interrupts, if result == -EINTR then 1 else 0
        {
          result := io.Cancel(i);
        }
        if result < 0 && result != -ENOENT { return true; }
      }
      for received := 0 to pending
        invariant |io.flying| == pending - received && Inside(blocks, io.flying) && OutsideKept(before, blocks, io.file)
        invariant old(io.trouble).Some? ==> io.trouble == old(io.trouble)
      {
        ghost var flying, file := io.flying, io.file;
        var error, id, written, which := ReceiveResult(io);
        if error != 0 { return true; }
        EffectOutside(before, blocks, file, flying[which], written);
        InsideWithout(blocks, flying, which);
      }
    }
    io.Close();
    return false;
  }

  // ------------------------------------------------------------ the whole batch

  /** Why a batch is refused before anything is written, if it is. */
  predicate Acceptable(blocks: seq<Block>) {
    && |blocks| <= QUEUE_DEPTH
    && (forall i :: 0 <= i < |blocks| ==> blocks[i].offset >= 0 && blocks[i].offset + |blocks[i].data| <= INT64_MAX)
    && (forall i, j :: 0 <= j < i < |blocks| ==> !Overlap(blocks[i], blocks[j]))
  }

  /** The comparison of two ranges; an empty block overlaps nothing. */
  predicate Overlap(a: Block, b: Block) {
    && a.data != [] && b.data != []
    && a.offset < b.offset + |b.data| && b.offset < a.offset + |a.data|
  }

  /** The comparison is exact: accepted blocks write to different bytes, refused ones share one. */
  lemma OverlapIsShared(a: Block, b: Block)
    ensures Overlap(a, b) <==> exists p :: Covers(a, p) && Covers(b, p)
  {
    if Overlap(a, b) {
      var p := if a.offset < b.offset then b.offset else a.offset;
      assert Covers(a, p) && Covers(b, p);
    }
  }

  lemma AcceptableDisjoint(blocks: seq<Block>)
    requires Acceptable(blocks)
    ensures Disjoint(blocks)
  {
    forall i, j, p | 0 <= i < j < |blocks| && Covers(blocks[i], p) ensures !Covers(blocks[j], p) {
      OverlapIsShared(blocks[j], blocks[i]);
    }
  }

  /** The checks in front of the first write: 0, EINVAL or EOVERFLOW. */
  method CheckBatch(blocks: seq<Block>) returns (error: int)
    requires |blocks| <= QUEUE_DEPTH
    ensures error == 0 <==> Acceptable(blocks)
    ensures error == 0 || error == EINVAL || error == EOVERFLOW
    ensures error == EOVERFLOW ==> exists i :: 0 <= i < |blocks| && blocks[i].offset + |blocks[i].data| > INT64_MAX
  {
    for i := 0 to |blocks|
      invariant forall k :: 0 <= k < i ==> blocks[k].offset >= 0 && blocks[k].offset + |blocks[k].data| <= INT64_MAX
      invariant forall k, j :: 0 <= j < k < i ==> !Overlap(blocks[k], blocks[j])
    {
      if blocks[i].offset < 0 { return EINVAL; }
      if blocks[i].offset + |blocks[i].data| > INT64_MAX { return EOVERFLOW; }
      if blocks[i].data == [] { continue; }
      for j := 0 to i
        invariant forall k :: 0 <= k < j ==> !Overlap(blocks[i], blocks[k])
      {
        if blocks[j].data == [] { continue; }
        if blocks[i].offset < blocks[j].offset + |blocks[j].data|
           && blocks[j].offset < blocks[i].offset + |blocks[i].data| {
          assert Overlap(blocks[i], blocks[j]);
          return EINVAL;
        }
      }
    }
    return 0;
  }

  function Left(blocks: seq<Block>, done: seq<nat>): nat
    requires |done| == |blocks| && forall i :: 0 <= i < |blocks| ==> done[i] <= |blocks[i].data|
  {
    if blocks == [] then 0
    else Left(blocks[..|blocks| - 1], done[..|done| - 1]) + |blocks[|blocks| - 1].data| - done[|done| - 1]
  }

  lemma {:induction false} LeftFalls(blocks: seq<Block>, done: seq<nat>, i: nat, n: nat)
    requires |done| == |blocks| && (forall k :: 0 <= k < |blocks| ==> done[k] <= |blocks[k].data|)
    requires i < |blocks| && done[i] + n <= |blocks[i].data|
    ensures Left(blocks, done[i := done[i] + n]) == Left(blocks, done) - n
    decreases |blocks|
  {
    var last := |blocks| - 1;
    if i < last {
      LeftFalls(blocks[..last], done[..last], i, n);
      assert done[i := done[i] + n][..last] == done[..last][i := done[i] + n];
    } else {
      assert done[i := done[i] + n][..last] == done[..last];
    }
  }

  /** How a batch ends; `Ended` is the process exit of the abort path. */
  datatype Outcome = Complete | Failed(error: int) | Ended

  /** An operation completes exactly when the kernel gave no error, and otherwise reports the
      first one. */
  predicate Reported(before: Option<int>, after: Option<int>, outcome: Outcome) {
    match outcome
    case Complete => after == before
    case Failed(error) => after == First(before, error)
    case Ended => after.Some?
  }

  /** What `fcntl` says about the descriptor. */
  datatype Descriptor = Unusable(error: int) | Appending | Positional

  /** A collected request leaves the others as they are; its block may have grown by `n`. */
  lemma CollectedMatches(blocks: seq<Block>, done: seq<nat>, asked: seq<nat>, flying: seq<Request>, j: nat, n: nat)
    requires Matches(blocks, done, asked, flying) && j < |flying| && n <= |flying[j].data|
    ensures var id := flying[j].id;
            && id < |blocks| && asked[id] == |flying[j].data| > 0 && done[id] + n <= |blocks[id].data|
            && Matches(blocks, done[id := done[id] + n], asked[id := 0], flying[..j] + flying[j + 1..])
  {
    var id := flying[j].id;
    assert PartOf(blocks, done, asked, flying[j]);
    var rest := flying[..j] + flying[j + 1..];
    forall k | 0 <= k < |rest| ensures PartOf(blocks, done[id := done[id] + n], asked[id := 0], rest[k]) {
      var f := if k < j then k else k + 1;
      assert rest[k] == flying[f] && PartOf(blocks, done, asked, flying[f]);
    }
    forall k, l | 0 <= k < l < |rest| ensures rest[k].id != rest[l].id {
      assert rest[k] == flying[if k < j then k else k + 1] && rest[l] == flying[if l < j then l else l + 1];
    }
  }

  /** A confirmed count is exactly the growth of the file's written part. */
  lemma CollectedPatched(before: ByteString, blocks: seq<Block>, done: seq<nat>, asked: seq<nat>, r: Request,
                         written: int, file: ByteString)
    requires Disjoint(blocks) && |done| == |blocks| == |asked|
             && (forall i :: 0 <= i < |blocks| ==> done[i] <= |blocks[i].data|)
    requires PartOf(blocks, done, asked, r) && 0 < written <= |r.data|
    requires Patched(before, Written(blocks, done), file)
    ensures Patched(before, Written(blocks, done[r.id := done[r.id] + written]), Effect(file, r, written))
  {
    hide Patched;
    PatchedMore(before, blocks, done, r.id, written, file);
    assert (if written < |r.data| then r.data[..written] else r.data)
           == blocks[r.id].data[done[r.id]..done[r.id] + written];
  }

  /** What one completion means for the progress records. */
  function Settle(done: seq<nat>, id: nat, requested: nat, written: int): seq<nat>
    requires id < |done|
  {
    if 0 < written <= requested then done[id := done[id] + written] else done
  }

  /** One collected completion, all at once. */
  lemma Collected(before: ByteString, blocks: seq<Block>, done: seq<nat>, asked: seq<nat>, flying: seq<Request>, j: nat,
                  written: int, file: ByteString)
    requires Disjoint(blocks) && Matches(blocks, done, asked, flying) && j < |flying|
    ensures var id := flying[j].id;
            && id < |blocks| && asked[id] == |flying[j].data| > 0
            && var done' := Settle(done, id, asked[id], written);
               && Matches(blocks, done', asked[id := 0], flying[..j] + flying[j + 1..])
               && Left(blocks, done') == Left(blocks, done) - (if 0 < written <= asked[id] then written else 0)
               && (Patched(before, Written(blocks, done), file) && written <= asked[id]
                   ==> Patched(before, Written(blocks, done'), Effect(file, flying[j], written)))
  {
    hide Patched, Left, Disjoint;
    var r := flying[j];
    assert PartOf(blocks, done, asked, r);
    if 0 < written <= |r.data| {
      CollectedMatches(blocks, done, asked, flying, j, written);
      LeftFalls(blocks, done, r.id, written);
      if Patched(before, Written(blocks, done), file) {
        CollectedPatched(before, blocks, done, asked, r, written, file);
      }
    } else {
      CollectedMatches(blocks, done, asked, flying, j, 0);
      assert done[r.id := done[r.id] + 0] == done;
    }
  }

  /** Collecting the completions of one round. */
  method CollectRound(io: Ring, submitted: nat, blocks: seq<Block>, done: array<nat>, asked: array<nat>,
                      ghost before: ByteString)
    returns (outcome: Outcome)
    requires done.Length == |blocks| == asked.Length && done != asked && Disjoint(blocks)
    requires submitted == |io.flying| && Matches(blocks, done[..], asked[..], io.flying) && io.prepared == []
    requires Patched(before, Written(blocks, done[..]), io.file)
    modifies io, done, asked
    ensures forall i :: 0 <= i < |blocks| ==> done[i] <= |blocks[i].data|
    ensures outcome.Complete? ==>
              && io.flying == [] && io.prepared == [] && io.initialized == old(io.initialized)
              && Patched(before, Written(blocks, done[..]), io.file)
              && (submitted > 0 ==> Left(blocks, done[..]) < Left(blocks, old(done[..]))
                                    || (Left(blocks, done[..]) == Left(blocks, old(done[..]))
                                        && io.interrupts < old(io.interrupts)))
    ensures outcome.Failed? ==> io.flying == [] && OutsideKept(before, blocks, io.file)
    ensures Reported(old(io.trouble), io.trouble, outcome)
  {
    hide Patched, OutsideKept, Effect, Disjoint, Left, PartOf, Written;
    PatchedOutside(before, blocks, done[..], io.file);
    var firstError := 0;
    var received := 0;
    ghost var left0, interrupts0 := Left(blocks, done[..]), io.interrupts;
    while received < submitted
      invariant 0 <= received <= submitted && |io.flying| == submitted - received && io.prepared == []
                && io.initialized == old(io.initialized)
      invariant Matches(blocks, done[..], asked[..], io.flying)
      invariant OutsideKept(before, blocks, io.file)
      invariant firstError == 0 ==> Patched(before, Written(blocks, done[..]), io.file)
      invariant Left(blocks, done[..]) <= left0 && io.interrupts <= interrupts0
      invariant firstError == 0 ==> io.trouble == old(io.trouble)
      invariant firstError != 0 ==> io.trouble == First(old(io.trouble), firstError)
      invariant firstError == 0 && received > 0 ==> Left(blocks, done[..]) < left0 || io.interrupts < interrupts0
    {
      ghost var flying, file := io.flying, io.file;
      MatchesInside(blocks, done[..], asked[..], flying);
      var error, id, written, which := ReceiveResult(io);
      if error != 0 {
        var fatal := AbortRequests(io, submitted - received, before, blocks);
        if fatal { return Ended; }
        return Failed(if firstError != 0 then firstError else error);
      }
      received := received + 1;
      EffectOutside(before, blocks, file, flying[which], written);
      Collected(before, blocks, done[..], asked[..], flying, which, written, file);
      ghost var done0, asked0 := done[..], asked[..];
      if id >= |blocks| || asked[id] == 0 {
        assert false;
        firstError := EIO;
      } else {
        var requested := asked[id];
        asked[id] := 0;
        if written == -EINTR {
        } else if written <= 0 || written > requested {
          if firstError == 0 { firstError := if written < 0 then -written else EIO; }
        } else {
          done[id] := done[id] + written;
        }
        assert asked[..] == asked0[id := 0];
        assert done[..] == Settle(done0, id, requested, written);
      }
    }
    if firstError != 0 { return Failed(firstError); }
    return Complete;
  }

  /** `kvs_uring_io_write_batch`. */
  method WriteBatch(io: Ring, descriptor: Descriptor, blocks: seq<Block>) returns (outcome: Outcome)
    requires io.flying == [] && io.prepared == []
    modifies io
    ensures outcome.Complete? ==> io.flying == [] && io.prepared == [] && io.initialized == old(io.initialized)
    ensures outcome.Complete? && blocks != [] ==> Acceptable(blocks) && descriptor.Positional? && old(io.initialized)
    ensures outcome.Complete? ==> Patched(old(io.file), blocks, io.file)
    ensures outcome.Failed? ==> io.flying == [] && OutsideKept(old(io.file), blocks, io.file)
    ensures !(old(io.initialized) && descriptor.Positional? && Acceptable(blocks)) && !outcome.Complete? ==>
              outcome.Failed? && io.file == old(io.file)
    ensures !old(io.initialized) || |blocks| > QUEUE_DEPTH ==> outcome == Failed(EINVAL)
    ensures old(io.initialized) && blocks == [] ==> outcome == Complete
    ensures old(io.initialized) && 0 < |blocks| <= QUEUE_DEPTH && !descriptor.Positional? ==>
              outcome == Failed(if descriptor.Appending? then EINVAL else descriptor.error)
    ensures old(io.initialized) && descriptor.Positional? && Acceptable(blocks) ==>
              Reported(old(io.trouble), io.trouble, outcome)
  {
    hide Patched, OutsideKept, Disjoint, Matches, Left, Acceptable;
    Unchanged(io.file, blocks);
    FitsQueue(blocks);
    if !io.initialized || |blocks| > QUEUE_DEPTH { return Failed(EINVAL); }
    if |blocks| == 0 {
      PatchedNothing(io.file, blocks);
      return Complete;
    }
    match descriptor
    case Unusable(error) => return Failed(error);
    case Appending => return Failed(EINVAL);
    case Positional =>
      var refused := CheckBatch(blocks);
      if refused != 0 { return Failed(refused); }
      AcceptableDisjoint(blocks);
      Offsets(blocks);
      var done := new nat[|blocks|](_ => 0);
      var asked := new nat[|blocks|](_ => 0);
      ghost var before := io.file;
      NothingWritten(before, blocks, done[..]);
      outcome := Rounds(io, blocks, done, asked, before);
  }

  /** The rounds of a batch: prepare what is missing, submit, collect. */
  method Rounds(io: Ring, blocks: seq<Block>, done: array<nat>, asked: array<nat>, ghost before: ByteString)
    returns (outcome: Outcome)
    requires io.flying == [] && io.prepared == [] && done.Length == |blocks| == asked.Length && done != asked
             && Disjoint(blocks)
    requires forall i :: 0 <= i < |blocks| ==> blocks[i].offset >= 0 && done[i] <= |blocks[i].data|
    requires Patched(before, Written(blocks, done[..]), io.file)
    modifies io, done, asked
    ensures outcome.Complete? ==>
              io.flying == [] && io.prepared == [] && io.initialized == old(io.initialized)
              && Patched(before, blocks, io.file)
    ensures outcome.Failed? ==> io.flying == [] && OutsideKept(before, blocks, io.file)
    ensures |blocks| <= QUEUE_DEPTH ==> Reported(old(io.trouble), io.trouble, outcome)
  {
    hide Patched, OutsideKept, Disjoint, Matches, Left, Written, Inside;
    while true
      invariant io.trouble == old(io.trouble)
      invariant io.flying == [] && io.prepared == [] && io.initialized == old(io.initialized)
      invariant forall i :: 0 <= i < |blocks| ==> blocks[i].offset >= 0 && done[i] <= |blocks[i].data|
      invariant Patched(before, Written(blocks, done[..]), io.file)
      decreases Left(blocks, done[..]), io.interrupts
    {
      PatchedOutside(before, blocks, done[..], io.file);
      var count := PrepareWrites(io, blocks, done, asked);
      if count < 0 {
        NoneInside(blocks);
        var fatal := AbortRequests(io, 0, before, blocks);
        return if fatal then Ended else Failed(EBUSY);
      }
      if count == 0 {
        AllWritten(blocks, done[..]);
        return Complete;
      }
      ghost var requests := io.prepared;
      var error, submitted := SubmitPrepared(io, count);
      SomeMatch(blocks, done[..], asked[..], requests, submitted);
      if error != 0 {
        MatchesInside(blocks, done[..], asked[..], io.flying);
        var fatal := AbortRequests(io, submitted, before, blocks);
        return if fatal then Ended else Failed(error);
      }
      outcome := CollectRound(io, submitted, blocks, done, asked, before);
      if !outcome.Complete? { return; }
    }
  }

  lemma Unchanged(file: ByteString, blocks: seq<Block>)
    ensures OutsideKept(file, blocks, file)
  {
  }

  lemma FitsQueue(blocks: seq<Block>)
    ensures Acceptable(blocks) ==> |blocks| <= QUEUE_DEPTH
  {
  }

  lemma Offsets(blocks: seq<Block>)
    requires Acceptable(blocks)
    ensures forall i :: 0 <= i < |blocks| ==> blocks[i].offset >= 0
  {
  }

  lemma NothingWritten(file: ByteString, blocks: seq<Block>, done: seq<nat>)
    requires |done| == |blocks| && forall i :: 0 <= i < |blocks| ==> done[i] == 0
    ensures Patched(file, Written(blocks, done), file)
  {
    PatchedNothing(file, Written(blocks, done));
  }

  lemma NoneInside(blocks: seq<Block>)
    ensures Inside(blocks, [])
  {
  }

  lemma AllWritten(blocks: seq<Block>, done: seq<nat>)
    requires |done| == |blocks| && forall i :: 0 <= i < |blocks| ==> done[i] == |blocks[i].data|
    ensures Written(blocks, done) == blocks
  {
    forall i | 0 <= i < |blocks| ensures Written(blocks, done)[i] == blocks[i] {
      assert blocks[i].data[..done[i]] == blocks[i].data;
    }
  }

  lemma SomeMatch(blocks: seq<Block>, done: seq<nat>, asked: seq<nat>, requests: seq<Request>, k: nat)
    requires Matches(blocks, done, asked, requests) && k <= |requests|
    ensures Matches(blocks, done, asked, requests[..k])
  {
  }

  // ------------------------------------------------------------------- fsync

  /** `kvs_uring_io_sync`: one request at a time, repeated while it is interrupted. The file's
      contents stay as they are, and nothing is in flight afterwards. */
  method Sync(io: Ring, descriptor: Descriptor) returns (outcome: Outcome)
    requires io.flying == [] && io.prepared == []
    modifies io
    ensures outcome.Complete? ==>
              io.flying == [] && io.prepared == [] && io.initialized && old(io.initialized) && io.file == old(io.file)
    ensures outcome.Failed? ==>
              io.flying == [] && |old(io.file)| <= |io.file| && io.file[..|old(io.file)|] == old(io.file)
    ensures !old(io.initialized) || descriptor.Unusable? ==> outcome == Failed(EINVAL)
    ensures old(io.initialized) && !descriptor.Unusable? ==> Reported(old(io.trouble), io.trouble, outcome)
  {
    if !io.initialized || descriptor.Unusable? { return Failed(EINVAL); }
    ghost var before, none := io.file, [Block([], 0)];
    while true
      invariant io.flying == [] && io.prepared == [] && io.initialized && io.file == before
      invariant io.trouble == old(io.trouble)
      decreases io.interrupts
    {
      var ok := io.Prepare(Request(0, [], 0));
      if !ok { return Failed(EBUSY); }
      var result := io.Submit();
      while result == -EINTR
        invariant result <= 1 && io.file == before && io.initialized && io.interrupts <= old(io.interrupts)
        invariant result <= 0 ==> io.flying == [] && io.prepared == [Request(0, [], 0)]
        invariant io.trouble == if result == 1 || result == -EINTR then old(io.trouble)
                                else First(old(io.trouble), ErrorOf(result))
        invariant result > 0 ==> io.flying == [Request(0, [], 0)] && io.prepared == []
        decreases io.interrupts, if result == -EINTR then 1 else 0
      {
        result := io.Submit();
      }
      if result != 1 {
        io.Close();
        return Failed(if result < 0 then -result else EIO);
      }
      var error, id, written, which := ReceiveResult(io);
      if error != 0 {
        SyncInside(before);
        var fatal := AbortRequests(io, 1, before, none);
        if !fatal { KeptPrefix(before, io.file); }
        return if fatal then Ended else Failed(error);
      }
      if written == -EINTR { continue; }
      if written != 0 { return Failed(if written < 0 then -written else EIO); }
      return Complete;
    }
  }

  lemma SyncInside(file: ByteString)
    ensures Inside([Block([], 0)], [Request(0, [], 0)]) && OutsideKept(file, [Block([], 0)], file)
  {
  }

  lemma KeptPrefix(before: ByteString, file: ByteString)
    requires OutsideKept(before, [Block([], 0)], file)
    ensures |before| <= |file| && file[..|before|] == before
  {
    forall p | 0 <= p < |before| ensures file[p] == before[p] {
      assert Free([Block([], 0)], p);
    }
  }
}
