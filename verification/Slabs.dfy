/** One slab (slab_create, slab_alloc_block and pool_free_small in src/memory/kvs_allocator.c):
    a bitmap in bytes, a counter, and a free list whose links are stored in the free blocks
    themselves. */
module Slabs {
  import opened PoolLayout

  // ----------------------------------------------------------------- the bitmap

  /** `1u << k`. */
  function Mask(k: nat): bv8
    requires k < 8
  {
    if k == 0 then 1 else if k == 1 then 2 else if k == 2 then 4 else if k == 3 then 8
    else if k == 4 then 16 else if k == 5 then 32 else if k == 6 then 64 else 128
  }

  predicate HasMask(b: bv8, k: nat)
    requires k < 8
  {
    b & Mask(k) != 0
  }

  function OrMask(b: bv8, k: nat): bv8
    requires k < 8
  {
    b | Mask(k)
  }

  function AndNotMask(b: bv8, k: nat): bv8
    requires k < 8
  {
    b & !Mask(k)
  }

  predicate Bit(bitmap: seq<bv8>, i: nat)
    requires i / 8 < |bitmap|
  {
    HasMask(bitmap[i / 8], i % 8)
  }

  function WithBit(bitmap: seq<bv8>, i: nat): seq<bv8>
    requires i / 8 < |bitmap|
  {
    bitmap[i / 8 := OrMask(bitmap[i / 8], i % 8)]
  }

  function WithoutBit(bitmap: seq<bv8>, i: nat): seq<bv8>
    requires i / 8 < |bitmap|
  {
    bitmap[i / 8 := AndNotMask(bitmap[i / 8], i % 8)]
  }

  lemma MaskSet(b: bv8, j: nat, k: nat)
    requires j < 8 && k < 8
    ensures HasMask(OrMask(b, j), k) <==> j == k || HasMask(b, k)
  {
    var x, y := Mask(j), Mask(k);
    assert j != k ==> x & y == 0;
    assert y & y != 0;
    assert (b | x) & y == (b & y) | (x & y);
  }

  lemma MaskClear(b: bv8, j: nat, k: nat)
    requires j < 8 && k < 8
    ensures HasMask(AndNotMask(b, j), k) <==> j != k && HasMask(b, k)
  {
    var x, y := Mask(j), Mask(k);
    assert j != k ==> !x & y == y;
    assert !y & y == 0;
    assert (b & !x) & y == b & (!x & y);
  }

  lemma BitSet(bitmap: seq<bv8>, i: nat, k: nat)
    requires i / 8 < |bitmap| && k / 8 < |bitmap|
    ensures Bit(WithBit(bitmap, i), k) <==> i == k || Bit(bitmap, k)
  {
    hide HasMask, OrMask;
    if i / 8 == k / 8 {
      MaskSet(bitmap[i / 8], i % 8, k % 8);
    }
  }

  lemma BitCleared(bitmap: seq<bv8>, i: nat, k: nat)
    requires i / 8 < |bitmap| && k / 8 < |bitmap|
    ensures Bit(WithoutBit(bitmap, i), k) <==> i != k && Bit(bitmap, k)
  {
    hide HasMask, AndNotMask;
    if i / 8 == k / 8 {
      MaskClear(bitmap[i / 8], i % 8, k % 8);
    }
  }

  lemma BitsOfZero(bitmap: seq<bv8>, k: nat)
    requires k / 8 < |bitmap| && bitmap[k / 8] == 0
    ensures !Bit(bitmap, k)
  {
  }

  function LiveBits(bitmap: seq<bv8>, capacity: nat): set<nat>
    requires capacity <= 8 * |bitmap|
  {
    set i: nat | i < capacity && Bit(bitmap, i)
  }

  // --------------------------------------------------------------- the free list

  predicate Distinct(s: seq<nat>) {
    forall i, j :: 0 <= i < j < |s| ==> s[i] != s[j]
  }

  /** The address of the `k`-th free block; the list ends with a null pointer. */
  function Link(start: nat, blockSize: nat, free: seq<nat>, k: nat): nat {
    if k < |free| then start + free[k] * blockSize else 0
  }

  /** Each free block's first word holds the address of the next free block. */
  ghost predicate Threaded(start: nat, blockSize: nat, free: seq<nat>, words: seq<nat>) {
    && Distinct(free)
    && (forall k {:trigger free[k]} :: 0 <= k < |free| ==>
        free[k] < |words| && words[free[k]] == Link(start, blockSize, free, k + 1))
  }

  lemma ThreadedPop(start: nat, blockSize: nat, free: seq<nat>, words: seq<nat>)
    requires Threaded(start, blockSize, free, words) && free != []
    ensures Threaded(start, blockSize, free[1..], words) && free[0] !in free[1..]
    ensures words[free[0]] == Link(start, blockSize, free[1..], 0)
  {
  }

  lemma ThreadedPush(start: nat, blockSize: nat, free: seq<nat>, words: seq<nat>, i: nat)
    requires Threaded(start, blockSize, free, words) && i < |words| && i !in free
    ensures Threaded(start, blockSize, [i] + free, words[i := Link(start, blockSize, free, 0)])
    ensures Link(start, blockSize, [i] + free, 0) == start + i * blockSize
  {
  }

  /** What the owner of a block writes into it does not reach the list. */
  lemma ThreadedOther(start: nat, blockSize: nat, free: seq<nat>, words: seq<nat>, i: nat, word: nat)
    requires Threaded(start, blockSize, free, words) && i < |words| && i !in free
    ensures Threaded(start, blockSize, free, words[i := word])
  {
  }

  function Elements(s: seq<nat>): (r: set<nat>)
    ensures forall x :: x in r <==> x in s
  {
    if s == [] then {} else {s[0]} + Elements(s[1..])
  }

  function Upto(n: nat): (r: set<nat>)
    ensures |r| == n && forall i: nat :: i in r <==> i < n
  {
    if n == 0 then {} else Upto(n - 1) + {n - 1}
  }

  lemma {:induction false} DistinctCount(s: seq<nat>)
    requires Distinct(s)
    ensures |Elements(s)| == |s|
  {
    if s != [] {
      DistinctCount(s[1..]);
      assert s[0] !in s[1..];
    }
  }

  /** Free and used blocks together are all blocks. */
  lemma UsedCount(capacity: nat, free: seq<nat>, live: set<nat>)
    requires Distinct(free) && (forall k :: 0 <= k < |free| ==> free[k] < capacity)
    requires forall i: nat :: i in live <==> i < capacity && i !in free
    ensures |live| + |free| == capacity
  {
    DistinctCount(free);
    assert Upto(capacity) == live + Elements(free);
    assert live * Elements(free) == {};
  }

  /** Cutting `count` blocks and threading them: block 0 ends up last. */
  method Thread(start: nat, blockSize: nat, count: nat) returns (list: nat, words: seq<nat>, ghost free: seq<nat>)
    ensures |words| == count && |free| == count && Threaded(start, blockSize, free, words)
    ensures list == Link(start, blockSize, free, 0)
    ensures forall k: nat :: k in free <==> k < count
  {
    list := 0;
    words := seq(count, _ => 0);
    free := [];
    assert Threaded(start, blockSize, [], words);
    hide Threaded, Link;
    assert list == Link(start, blockSize, free, 0) by { LinkEnd(start, blockSize); }
    for i := 0 to count
      invariant |words| == count && |free| == i && Threaded(start, blockSize, free, words)
      invariant list == Link(start, blockSize, free, 0)
      invariant forall k: nat :: k in free <==> k < i
    {
      ThreadedPush(start, blockSize, free, words, i);
      words := words[i := list];
      list := start + i * blockSize;
      free := [i] + free;
    }
  }

  lemma LinkEnd(start: nat, blockSize: nat)
    ensures Link(start, blockSize, [], 0) == 0
  {
  }

  /** When an offset is no multiple of the block size below the capacity, no block starts there. */
  lemma NoBlockAt(offset: nat, size: nat, capacity: nat, i: nat)
    requires size > 0 && i < capacity && (offset % size != 0 || offset / size >= capacity)
    ensures i * size != offset
  {
    Quotient(i, size);
  }

  // --------------------------------------------------------------------- a slab

  /** `kvs_slab_t` with the region it heads. `words` is the first word of every block: a link
      while the block is free, its owner's data while it is in use. */
  class Slab {
    const base: nat
    const blockSize: nat
    const capacity: nat
    const data: nat
    var usedCount: nat
    var freeList: nat
    var bitmap: seq<bv8>
    var words: seq<nat>
    var next: Slab?
    ghost var free: seq<nat>

    ghost predicate Placed()
    {
      && base % UNIT == 0 && base > 0 && SizeClass(blockSize) && blockSize > 0
      && capacity == Capacity(blockSize) && data == base + DataOffset(blockSize)
    }

    ghost predicate Valid()
      reads this
    {
      && Placed()
      && |bitmap| == BitmapBytes(blockSize) && capacity <= 8 * |bitmap| && |words| == capacity
      && Threaded(data, blockSize, free, words) && freeList == Link(data, blockSize, free, 0)
      && (forall i: nat {:trigger Bit(bitmap, i)} :: i < capacity ==> (Bit(bitmap, i) <==> i !in free))
      && usedCount + |free| == capacity
    }

    /** The blocks in use: the set bits. */
    ghost function Live(): set<nat>
      reads this
    {
      if capacity <= 8 * |bitmap| then LiveBits(bitmap, capacity) else {}
    }

    ghost function View(): Region
      reads this
    {
      SlabRegion(blockSize, Live())
    }

    /** The counter is the number of set bits, and the free list is exactly the clear bits,
        each once. */
    lemma CountIsBits()
      requires Valid()
      ensures usedCount == |Live()| && Distinct(free)
      ensures forall i: nat :: i < capacity ==> (i in free <==> i !in Live())
      ensures freeList == 0 <==> |Live()| == capacity
    {
      hide HasMask, DataOffset, Capacity, BitmapBytes, SizeClass;
      forall i: nat ensures i in Live() <==> i < capacity && i !in free {
        assert i < capacity ==> (Bit(bitmap, i) <==> i !in free);
      }
      UsedCount(capacity, free, Live());
    }

    lemma ViewWellFormed()
      requires Valid()
      ensures WellFormed(base, View())
    {
      hide HasMask, DataOffset, Capacity, BitmapBytes, SizeClass, Threaded;
    }

    lemma PlacedRight()
      requires Valid()
      ensures SizeClass(blockSize) && blockSize > 0 && capacity == Capacity(blockSize) && base % UNIT == 0 && base > 0
    {
    }

    method SetNext(next: Slab?)
      requires Valid()
      modifies this`next
      ensures Valid() && View() == old(View()) && this.next == next
    {
      this.next := next;
    }

    /** `slab_create` for a region already obtained: all blocks free, threaded back to front. */
    constructor (base: nat, blockSize: nat)
      requires base % UNIT == 0 && base > 0 && SizeClass(blockSize)
      ensures Valid() && this.base == base && this.blockSize == blockSize && next == null
      ensures Live() == {} && freeList != 0
    {
      hide HasMask, SizeClass, Bit, Threaded, DataOffset, BitmapBytes, UpperCount, Capacity;
      Geometry(blockSize);
      CapacityIs(blockSize);
      var offset := DataOffset(blockSize);
      var count := (UNIT - offset) / blockSize;
      var list, ws;
      ghost var chain;
      list, ws, chain := Thread(base + offset, blockSize, count);
      this.base := base;
      this.blockSize := blockSize;
      capacity := count;
      data := base + offset;
      usedCount := 0;
      bitmap := seq(BitmapBytes(blockSize), _ => 0);
      next := null;
      words := ws;
      freeList := list;
      free := chain;
      new;
      forall i: nat | i < capacity ensures !Bit(bitmap, i) {
        BitsOfZero(bitmap, i);
      }
    }

    static lemma CapacityIs(blockSize: nat)
      requires blockSize > 0
      ensures Capacity(blockSize) == (UNIT - DataOffset(blockSize)) / blockSize
    {
      hide DataOffset;
    }

    /** `slab_alloc_block`: 0 when the slab is full, otherwise a block that was free. */
    method AllocBlock() returns (block: nat, ghost index: nat)
      requires Valid()
      modifies this`freeList, this`bitmap, this`usedCount, this`free
      ensures Valid() && (block == 0 <==> old(freeList) == 0)
      ensures block == 0 ==> unchanged(this)
      ensures block != 0 ==>
                && index < capacity && index !in old(Live()) && block == Block(base, blockSize, index)
                && Live() == old(Live()) + {index} && usedCount == old(usedCount) + 1
    {
      hide HasMask, SizeClass, Bit, Threaded, DataOffset, BitmapBytes, UpperCount, Capacity, WithBit;
      if freeList == 0 { return 0, 0; }
      block := freeList;
      index := free[0];
      FirstFree();
      var k := (block - data) / blockSize;
      Quotient(index, blockSize);
      assert k == index;
      ghost var before := bitmap;
      ThreadedPop(data, blockSize, free, words);
      freeList := words[k];
      bitmap := WithBit(bitmap, k);
      SetOne(before, capacity, k);
      usedCount := usedCount + 1;
      free := free[1..];
      forall i: nat | i < capacity ensures Bit(bitmap, i) <==> i !in free {
        BitSet(before, k, i);
        assert Bit(before, i) <==> i !in old(free);
        assert old(free) == [k] + free;
      }
    }

    lemma FirstFree()
      requires Valid() && freeList != 0
      ensures free != [] && free[0] < capacity && free[0] !in Live() && freeList == Block(base, blockSize, free[0])
      ensures freeList >= data && freeList - data == free[0] * blockSize && free[0] / 8 < |bitmap|
    {
      hide HasMask, SizeClass, DataOffset, BitmapBytes, UpperCount, Capacity;
      assert Bit(bitmap, free[0]) <==> free[0] !in free;
    }

    static lemma SetOne(before: seq<bv8>, capacity: nat, k: nat)
      requires capacity <= 8 * |before| && k < capacity
      ensures |WithBit(before, k)| == |before|
              && LiveBits(WithBit(before, k), capacity) == LiveBits(before, capacity) + {k}
    {
      hide Bit;
      forall i: nat | i < capacity ensures Bit(WithBit(before, k), i) <==> i == k || Bit(before, i) {
        BitSet(before, k, i);
      }
    }

    static lemma ClearOne(before: seq<bv8>, capacity: nat, k: nat)
      requires capacity <= 8 * |before| && k < capacity
      ensures |WithoutBit(before, k)| == |before|
              && LiveBits(WithoutBit(before, k), capacity) == LiveBits(before, capacity) - {k}
    {
      hide Bit;
      forall i: nat | i < capacity ensures Bit(WithoutBit(before, k), i) <==> i != k && Bit(before, i) {
        BitCleared(before, k, i);
      }
    }

    /** The block an address is the start of, -1 when it is none: below the data, inside a
        block, or past the last one. */
    method IndexOf(address: nat) returns (index: int)
      requires Valid()
      ensures -1 <= index < capacity
      ensures index >= 0 ==> address == Block(base, blockSize, index)
      ensures index < 0 ==> forall i: nat :: i < capacity ==> address != Block(base, blockSize, i)
    {
      hide HasMask, SizeClass, Bit, Threaded, DataOffset, BitmapBytes, UpperCount, Capacity;
      if address < data { return -1; }
      var offset := address - data;
      if offset % blockSize != 0 || offset / blockSize >= capacity {
        forall i: nat | i < capacity ensures address != Block(base, blockSize, i) {
          NoBlockAt(offset, blockSize, capacity, i);
        }
        return -1;
      }
      DivisionBounds(offset, blockSize);
      return offset / blockSize;
    }

    /** `pool_free_small`: refuses everything but the start of a block in use, so in particular
        a second free. */
    method FreeBlock(address: nat) returns (result: int, ghost index: nat)
      requires Valid() && address != 0
      modifies this`freeList, this`bitmap, this`usedCount, this`free, this`words
      ensures Valid() && (result == 0 || result == -1)
      ensures result == -1 <==> forall i: nat :: i in old(Live()) ==> address != Block(base, blockSize, i)
      ensures result == -1 ==> unchanged(this)
      ensures result == 0 ==>
                && index in old(Live()) && address == Block(base, blockSize, index)
                && Live() == old(Live()) - {index} && usedCount == old(usedCount) - 1
    {
      hide HasMask, SizeClass, Bit, Threaded, DataOffset, BitmapBytes, UpperCount, Capacity, WithoutBit;
      CountIsBits();
      var k := IndexOf(address);
      if k < 0 { return -1, 0; }
      index := k;
      if !Bit(bitmap, k) || usedCount == 0 {
        NotLive(k, address);
        return -1, 0;
      }
      ghost var before := bitmap;
      bitmap := WithoutBit(bitmap, k);
      ClearOne(before, capacity, k);
      ThreadedPush(data, blockSize, free, words, k);
      words := words[k := freeList];
      freeList := address;
      free := [index] + free;
      usedCount := usedCount - 1;
      forall i: nat | i < capacity ensures Bit(bitmap, i) <==> i !in free {
        BitCleared(before, k, i);
        assert Bit(before, i) <==> i !in old(free);
      }
      return 0, index;
    }

    lemma NotLive(k: nat, address: nat)
      requires Valid() && k < capacity && address == Block(base, blockSize, k) && (!Bit(bitmap, k) || usedCount == 0)
      ensures forall i: nat :: i in Live() ==> address != Block(base, blockSize, i)
    {
      hide HasMask, Bit, SizeClass, DataOffset, BitmapBytes, UpperCount, Capacity, Threaded;
      CountIsBits();
      forall i: nat | i in Live() ensures address != Block(base, blockSize, i) {
        if address == Block(base, blockSize, i) {
          BlockInjective(base, blockSize, i, k);
        }
      }
    }

    /** The owner of a block in use writes its first word: the bookkeeping is not affected. */
    method OwnerWrites(index: nat, word: nat)
      requires Valid() && index in Live()
      modifies this`words
      ensures Valid() && words == old(words)[index := word]
    {
      hide HasMask, SizeClass, DataOffset, BitmapBytes, UpperCount, Capacity, Threaded;
      CountIsBits();
      ThreadedOther(data, blockSize, free, words, index, word);
      words := words[index := word];
    }
  }
}
