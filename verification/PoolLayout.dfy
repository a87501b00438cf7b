/** The memory pool of src/memory/kvs_allocator.c, as values: regions aligned to 64 KiB, each a
    slab of equal blocks or one large object, and the pointers handed out. */
module PoolLayout {
  const UNIT: nat := 64 * 1024
  const ALIGNMENT: nat := 16
  const SLAB_HEADER: nat := 64
  const LARGE_HEADER: nat := 32
  const LINK_SIZE: nat := 8

  const BLOCK_SIZES: seq<nat> := [16, 32, 48, 64, 96, 128, 192, 256, 384, 512, 768, 1024, 1536, 2048, 3072, 4096]
  const MAX_BLOCK: nat := 4096

  // ------------------------------------------------------------ one slab's layout

  function UpperCount(blockSize: nat): nat
    requires blockSize > 0
  {
    (UNIT - SLAB_HEADER) / blockSize
  }

  function BitmapBytes(blockSize: nat): nat
    requires blockSize > 0
  {
    UpperCount(blockSize) / 8 + if UpperCount(blockSize) % 8 != 0 then 1 else 0
  }

  function DataOffset(blockSize: nat): nat
    requires blockSize > 0
  {
    ((SLAB_HEADER + BitmapBytes(blockSize) + ALIGNMENT - 1) / ALIGNMENT) * ALIGNMENT
  }

  function Capacity(blockSize: nat): int
    requires blockSize > 0
  {
    (UNIT - DataOffset(blockSize)) / blockSize
  }

  predicate SizeClass(blockSize: nat) {
    blockSize in BLOCK_SIZES
  }

  lemma SizeClassFacts(blockSize: nat)
    requires SizeClass(blockSize)
    ensures ALIGNMENT <= blockSize <= MAX_BLOCK && blockSize % ALIGNMENT == 0
  {
  }

  lemma DivisionBounds(n: nat, d: nat)
    requires d > 0
    ensures (n / d) * d <= n < (n / d) * d + d
  {
  }

  lemma DivisionOrder(m: nat, n: nat, d: nat)
    requires d > 0 && m <= n
    ensures m / d <= n / d
  {
    DivisionBounds(m, d);
    DivisionBounds(n, d);
    if n / d < m / d {
      Products(n / d, m / d, d);
    }
  }

  /** The first block starts behind header and bitmap, aligned, and well inside the unit. */
  lemma OffsetRange(blockSize: nat)
    requires blockSize >= ALIGNMENT
    ensures SLAB_HEADER + BitmapBytes(blockSize) <= DataOffset(blockSize) < UNIT - MAX_BLOCK
    ensures DataOffset(blockSize) % ALIGNMENT == 0
  {
    FewBlocks(blockSize);
    hide BitmapBytes;
    var n := SLAB_HEADER + BitmapBytes(blockSize);
    assert n <= ((n + ALIGNMENT - 1) / ALIGNMENT) * ALIGNMENT <= n + ALIGNMENT - 1;
  }

  /** At least one block fits behind the offset, and never more than the bitmap has bits for. */
  lemma CountRange(blockSize: nat, offset: nat)
    requires ALIGNMENT <= blockSize <= MAX_BLOCK && SLAB_HEADER <= offset < UNIT - MAX_BLOCK
    ensures 0 < (UNIT - offset) / blockSize <= UpperCount(blockSize)
    ensures offset + ((UNIT - offset) / blockSize) * blockSize <= UNIT
  {
    hide UpperCount;
    DivisionBounds(UNIT - offset, blockSize);
    DivisionOrder(UNIT - offset, UNIT - SLAB_HEADER, blockSize);
    DivisionOrder(blockSize, UNIT - offset, blockSize);
    UpperIs(blockSize);
  }

  /** Every size class leaves room for its header, its bitmap and at least one block, has a bit
      for every block, and fills no more than one unit. */
  lemma Geometry(blockSize: nat)
    requires SizeClass(blockSize)
    ensures LINK_SIZE <= blockSize <= MAX_BLOCK && blockSize % ALIGNMENT == 0
    ensures SLAB_HEADER + BitmapBytes(blockSize) <= DataOffset(blockSize) < UNIT
            && DataOffset(blockSize) % ALIGNMENT == 0
    ensures 0 < Capacity(blockSize) <= UpperCount(blockSize) <= 8 * BitmapBytes(blockSize)
    ensures DataOffset(blockSize) + Capacity(blockSize) * blockSize <= UNIT
  {
    SizeClassFacts(blockSize);
    FewBlocks(blockSize);
    OffsetRange(blockSize);
    hide SizeClass, DataOffset, BitmapBytes, UpperCount;
    CountRange(blockSize, DataOffset(blockSize));
  }

  lemma UpperIs(blockSize: nat)
    requires blockSize > 0
    ensures UpperCount(blockSize) == (UNIT - SLAB_HEADER) / blockSize
  {
  }

  lemma FewBlocks(blockSize: nat)
    requires blockSize >= ALIGNMENT
    ensures UpperCount(blockSize) <= 4092 && BitmapBytes(blockSize) <= 512
            && UpperCount(blockSize) <= 8 * BitmapBytes(blockSize)
  {
    DivisionBounds(UNIT - SLAB_HEADER, blockSize);
    assert UpperCount(blockSize) * (blockSize - ALIGNMENT) >= 0;
  }

  function Block(base: nat, blockSize: nat, index: nat): nat
    requires blockSize > 0
  {
    base + DataOffset(blockSize) + index * blockSize
  }

  /** The start of the unit an address lies in: the low sixteen bits cleared. */
  function Base(address: nat): nat {
    address - address % UNIT
  }

  lemma BaseOf(base: nat, address: nat)
    requires base % UNIT == 0 && base <= address < base + UNIT
    ensures Base(address) == base
  {
    assert address % UNIT == address - base;
  }

  lemma Products(i: nat, j: nat, size: nat)
    requires i < j
    ensures i * size + size <= j * size
    decreases j - i
  {
    assert (i + 1) * size == i * size + size;
    if i + 1 < j {
      Products(i + 1, j, size);
    }
  }

  lemma ProductAligned(i: nat, size: nat)
    requires size % ALIGNMENT == 0
    ensures (i * size) % ALIGNMENT == 0
  {
    if i > 0 {
      ProductAligned(i - 1, size);
      assert i * size == (i - 1) * size + size;
    }
  }

  lemma Quotient(i: nat, size: nat)
    requires size > 0
    ensures (i * size) / size == i && (i * size) % size == 0
  {
    var q, r := (i * size) / size, (i * size) % size;
    assert q * size + r == i * size && 0 <= r < size;
    if q < i {
      Products(q, i, size);
    } else if i < q {
      Products(i, q, size);
    }
  }

  lemma SumAligned(base: nat, offset: nat, step: nat)
    requires base % UNIT == 0 && offset % ALIGNMENT == 0 && step % ALIGNMENT == 0
    ensures (base + offset + step) % ALIGNMENT == 0
  {
    var u := base / UNIT;
    assert base == ALIGNMENT * (4096 * u);
  }

  /** A block lies inside its slab, behind the header, aligned; masking finds the header. */
  lemma BlockPlace(base: nat, blockSize: nat, index: nat)
    requires SizeClass(blockSize) && blockSize > 0 && base % UNIT == 0 && index < Capacity(blockSize)
    ensures var p := Block(base, blockSize, index);
            && base + SLAB_HEADER + BitmapBytes(blockSize) <= p && p + blockSize <= base + UNIT
            && p % ALIGNMENT == 0 && Base(p) == base
  {
    hide DataOffset, Capacity, BitmapBytes, UpperCount, SizeClass, Base;
    Geometry(blockSize);
    Products(index, Capacity(blockSize), blockSize);
    ProductAligned(index, blockSize);
    var step := index * blockSize;
    SumAligned(base, DataOffset(blockSize), step);
    assert Block(base, blockSize, index) == base + DataOffset(blockSize) + step;
    hide Block;
    BaseOf(base, Block(base, blockSize, index));
  }

  lemma BlocksApart(base: nat, blockSize: nat, i: nat, j: nat)
    requires blockSize > 0 && i < j
    ensures Block(base, blockSize, i) + blockSize <= Block(base, blockSize, j)
  {
    Products(i, j, blockSize);
  }

  lemma BlockInjective(base: nat, blockSize: nat, i: nat, j: nat)
    requires blockSize > 0 && Block(base, blockSize, i) == Block(base, blockSize, j)
    ensures i == j
  {
    hide DataOffset;
    if i < j {
      BlocksApart(base, blockSize, i, j);
    } else if j < i {
      BlocksApart(base, blockSize, j, i);
    }
  }

  // ------------------------------------------------------------------- the pool

  datatype Region = SlabRegion(blockSize: nat, live: set<nat>) | LargeRegion(mapping: nat)

  /** `live` maps every pointer handed out and not freed to the size that was asked for. */
  datatype Pool = Pool(regions: map<nat, Region>, live: map<nat, nat>)

  const EMPTY: Pool := Pool(map[], map[])

  predicate WellFormed(base: nat, r: Region) {
    && base % UNIT == 0 && base > 0
    && match r
       case SlabRegion(b, live) => SizeClass(b) && forall i :: i in live ==> i < Capacity(b)
       case LargeRegion(m) => m > LARGE_HEADER
  }

  function Extent(r: Region): nat {
    if r.SlabRegion? then UNIT else r.mapping
  }

  /** The bytes a pointer into the region may use. */
  function Room(r: Region): int {
    if r.SlabRegion? then r.blockSize else r.mapping - LARGE_HEADER
  }

  predicate Apart(b: nat, r: Region, c: nat, s: Region) {
    b + Extent(r) <= c || c + Extent(s) <= b
  }

  /** The pointers into a region that are in use. */
  function PointersOf(base: nat, r: Region): set<nat>
    requires WellFormed(base, r)
  {
    match r
    case SlabRegion(b, live) => set i | i in live :: Block(base, b, i)
    case LargeRegion(_) => {base + LARGE_HEADER}
  }

  ghost predicate Placed(regions: map<nat, Region>) {
    && (forall b {:trigger WellFormed(b, regions[b])} :: b in regions ==> WellFormed(b, regions[b]))
    && (forall b, c {:trigger Apart(b, regions[b], c, regions[c])} :: b in regions && c in regions && b != c ==>
        Apart(b, regions[b], c, regions[c]))
  }

  predicate Owned(regions: map<nat, Region>, p: nat) {
    && Base(p) in regions && WellFormed(Base(p), regions[Base(p)])
    && p in PointersOf(Base(p), regions[Base(p)])
  }

  ghost predicate Inv(pool: Pool) {
    && Placed(pool.regions)
    && (forall p {:trigger Owned(pool.regions, p)} :: p in pool.live <==> Owned(pool.regions, p))
    && (forall p {:trigger Fits(pool, p)} :: p in pool.live ==> Fits(pool, p))
  }

  predicate Fits(pool: Pool, p: nat) {
    p in pool.live && Base(p) in pool.regions && 0 < pool.live[p] <= Room(pool.regions[Base(p)])
  }

  /** What clients rely on: objects in use do not overlap, are aligned, have the room asked for,
      and lie in their own region behind its header. */
  lemma LiveObjects(pool: Pool, p: nat, q: nat)
    requires Inv(pool) && p in pool.live && q in pool.live
    ensures p % ALIGNMENT == 0 && Base(p) in pool.regions && Base(p) < p
    ensures p + pool.live[p] <= Base(p) + Extent(pool.regions[Base(p)])
    ensures p != q ==> p + pool.live[p] <= q || q + pool.live[q] <= p
  {
    hide SizeClass, Capacity, DataOffset, BitmapBytes, Apart, Inv, Placed, Owned;
    PointerPlace(pool, p);
    PointerPlace(pool, q);
    if p != q {
      if Base(p) == Base(q) {
        SameSlab(pool, p, q);
      } else {
        OtherRegion(pool, Base(p), Base(q));
      }
    }
  }

  lemma PointerPlace(pool: Pool, p: nat)
    requires Inv(pool) && p in pool.live
    ensures Base(p) in pool.regions && Owned(pool.regions, p) && p % ALIGNMENT == 0
            && 0 < pool.live[p] <= Room(pool.regions[Base(p)])
    ensures var r := pool.regions[Base(p)];
            && (r.SlabRegion? ==> Base(p) + SLAB_HEADER <= p && p + r.blockSize <= Base(p) + UNIT)
            && (r.LargeRegion? ==> p == Base(p) + LARGE_HEADER)
  {
    assert Owned(pool.regions, p) && Fits(pool, p);
    var base := Base(p);
    var r := pool.regions[base];
    if r.SlabRegion? {
      var i :| i in r.live && p == Block(base, r.blockSize, i);
      BlockPlace(base, r.blockSize, i);
    }
  }

  lemma SameSlab(pool: Pool, p: nat, q: nat)
    requires Owned(pool.regions, p) && Owned(pool.regions, q) && p != q && Base(p) == Base(q)
    ensures var r := pool.regions[Base(p)]; p + Room(r) <= q || q + Room(r) <= p
  {
    hide SizeClass, Capacity, DataOffset;
    var base := Base(p);
    var r := pool.regions[base];
    if r.SlabRegion? {
      var i :| i in r.live && p == Block(base, r.blockSize, i);
      var j :| j in r.live && q == Block(base, r.blockSize, j);
      if i < j {
        BlocksApart(base, r.blockSize, i, j);
      } else {
        BlocksApart(base, r.blockSize, j, i);
      }
    }
  }

  lemma OtherRegion(pool: Pool, b: nat, c: nat)
    requires Inv(pool) && b in pool.regions && c in pool.regions && b != c
    ensures b + Extent(pool.regions[b]) <= c || c + Extent(pool.regions[c]) <= b
  {
    assert Apart(b, pool.regions[b], c, pool.regions[c]);
  }

  // ------------------------------------------------------------------- its steps

  function TakeBlock(pool: Pool, base: nat, index: nat, size: nat): Pool
    requires base in pool.regions && pool.regions[base].SlabRegion? && pool.regions[base].blockSize > 0
  {
    var r := pool.regions[base];
    Pool(pool.regions[base := r.(live := r.live + {index})], pool.live[Block(base, r.blockSize, index) := size])
  }

  function GiveBlock(pool: Pool, base: nat, index: nat): Pool
    requires base in pool.regions && pool.regions[base].SlabRegion? && pool.regions[base].blockSize > 0
  {
    var r := pool.regions[base];
    Pool(pool.regions[base := r.(live := r.live - {index})], pool.live - {Block(base, r.blockSize, index)})
  }

  function AddSlab(pool: Pool, base: nat, blockSize: nat): Pool {
    pool.(regions := pool.regions[base := SlabRegion(blockSize, {})])
  }

  function AddLarge(pool: Pool, base: nat, mapping: nat, size: nat): Pool {
    Pool(pool.regions[base := LargeRegion(mapping)], pool.live[base + LARGE_HEADER := size])
  }

  function DropLarge(pool: Pool, base: nat): Pool {
    Pool(pool.regions - {base}, pool.live - {base + LARGE_HEADER})
  }

  /** A new region does not touch any existing one. */
  ghost predicate Clear(pool: Pool, base: nat, extent: nat) {
    && base % UNIT == 0 && base > 0
    && forall c {:trigger c in pool.regions} :: c in pool.regions ==>
      base + extent <= c || c + Extent(pool.regions[c]) <= base
  }

  lemma OwnedElsewhere(before: map<nat, Region>, after: map<nat, Region>, p: nat)
    requires (Base(p) in before <==> Base(p) in after) && (Base(p) in before ==> before[Base(p)] == after[Base(p)])
    ensures Owned(before, p) <==> Owned(after, p)
  {
    hide WellFormed;
  }

  lemma TakeBlockKeeps(pool: Pool, base: nat, index: nat, size: nat)
    requires Inv(pool) && base in pool.regions && pool.regions[base].SlabRegion?
    requires SizeClass(pool.regions[base].blockSize)
    requires index < Capacity(pool.regions[base].blockSize) && index !in pool.regions[base].live
    requires 0 < size <= pool.regions[base].blockSize
    ensures Inv(TakeBlock(pool, base, index, size))
    ensures Block(base, pool.regions[base].blockSize, index) !in pool.live
  {
    var r := pool.regions[base];
    var next := TakeBlock(pool, base, index, size);
    var fresh_ := Block(base, r.blockSize, index);
    assert WellFormed(base, r);
    BlockPlace(base, r.blockSize, index);
    hide SizeClass, Capacity, DataOffset, BitmapBytes, Block;
    UpdatePlaced(pool.regions, base, next.regions[base]);
    hide Placed;
    forall p {:trigger Owned(next.regions, p)} ensures p in next.live <==> Owned(next.regions, p) {
      TakeBlockOwned(pool, base, index, size, p);
    }
    forall p | p in next.live ensures Fits(next, p) {
      assert p != fresh_ ==> Fits(pool, p);
    }
    TakeBlockNew(pool, base, index);
  }

  lemma UpdatePlaced(regions: map<nat, Region>, base: nat, r: Region)
    requires Placed(regions) && base in regions && WellFormed(base, r) && Extent(r) == Extent(regions[base])
    ensures Placed(regions[base := r])
  {
    hide WellFormed;
    var next := regions[base := r];
    forall b | b in next ensures WellFormed(b, next[b]) {
      assert b != base ==> WellFormed(b, regions[b]);
    }
    forall b, c | b in next && c in next && b != c ensures Apart(b, next[b], c, next[c]) {
      assert Apart(b, regions[b], c, regions[c]);
    }
  }

  lemma TakeBlockNew(pool: Pool, base: nat, index: nat)
    requires Inv(pool) && base in pool.regions && pool.regions[base].SlabRegion?
             && SizeClass(pool.regions[base].blockSize)
    requires index < Capacity(pool.regions[base].blockSize) && index !in pool.regions[base].live
    ensures Block(base, pool.regions[base].blockSize, index) !in pool.live
  {
    var r := pool.regions[base];
    var p := Block(base, r.blockSize, index);
    assert WellFormed(base, r);
    BlockPlace(base, r.blockSize, index);
    if Owned(pool.regions, p) {
      var i :| i in r.live && p == Block(base, r.blockSize, i);
      BlockInjective(base, r.blockSize, i, index);
    }
  }

  lemma TakeBlockOwned(pool: Pool, base: nat, index: nat, size: nat, p: nat)
    requires Inv(pool) && base in pool.regions && pool.regions[base].SlabRegion?
             && SizeClass(pool.regions[base].blockSize)
    requires index < Capacity(pool.regions[base].blockSize)
    ensures var next := TakeBlock(pool, base, index, size); p in next.live <==> Owned(next.regions, p)
  {
    var r := pool.regions[base];
    var next := TakeBlock(pool, base, index, size);
    assert WellFormed(base, r);
    BlockPlace(base, r.blockSize, index);
    hide SizeClass, Capacity, DataOffset, BitmapBytes, Block;
    assert Owned(pool.regions, p) <==> p in pool.live;
    if Base(p) != base {
      OwnedElsewhere(pool.regions, next.regions, p);
    } else {
      assert WellFormed(base, next.regions[base]);
      assert PointersOf(base, next.regions[base]) == PointersOf(base, r) + {Block(base, r.blockSize, index)};
    }
  }

  lemma GiveBlockKeeps(pool: Pool, base: nat, index: nat)
    requires Inv(pool) && base in pool.regions && pool.regions[base].SlabRegion?
    requires SizeClass(pool.regions[base].blockSize) && index in pool.regions[base].live
    ensures Inv(GiveBlock(pool, base, index))
    ensures Block(base, pool.regions[base].blockSize, index) in pool.live
  {
    var r := pool.regions[base];
    var next := GiveBlock(pool, base, index);
    assert WellFormed(base, r);
    hide SizeClass, Capacity, DataOffset, BitmapBytes, Block;
    UpdatePlaced(pool.regions, base, next.regions[base]);
    hide Placed;
    forall p {:trigger Owned(next.regions, p)} ensures p in next.live <==> Owned(next.regions, p) {
      GiveBlockOwned(pool, base, index, p);
    }
    forall p | p in next.live ensures Fits(next, p) {
      assert Fits(pool, p);
    }
    GiveBlockOld(pool, base, index);
  }

  lemma GiveBlockOld(pool: Pool, base: nat, index: nat)
    requires Inv(pool) && base in pool.regions && pool.regions[base].SlabRegion?
             && SizeClass(pool.regions[base].blockSize)
    requires index in pool.regions[base].live
    ensures Block(base, pool.regions[base].blockSize, index) in pool.live
  {
    var r := pool.regions[base];
    assert WellFormed(base, r);
    BlockPlace(base, r.blockSize, index);
    hide SizeClass, Capacity, DataOffset, BitmapBytes, Block;
    assert Owned(pool.regions, Block(base, r.blockSize, index));
  }

  lemma PointersLess(base: nat, r: Region, index: nat)
    requires WellFormed(base, r) && r.SlabRegion? && index in r.live
    ensures PointersOf(base, r.(live := r.live - {index})) == PointersOf(base, r) - {Block(base, r.blockSize, index)}
  {
    hide SizeClass, Capacity, DataOffset, BitmapBytes, Block;
    assert SizeClass(r.blockSize);
    SizeClassFacts(r.blockSize);
    var gone := Block(base, r.blockSize, index);
    forall i | i in r.live && i != index ensures Block(base, r.blockSize, i) != gone {
      if Block(base, r.blockSize, i) == gone {
        BlockInjective(base, r.blockSize, i, index);
      }
    }
  }

  lemma GiveBlockOwned(pool: Pool, base: nat, index: nat, p: nat)
    requires Inv(pool) && base in pool.regions && pool.regions[base].SlabRegion?
             && SizeClass(pool.regions[base].blockSize)
    requires index in pool.regions[base].live
    ensures var next := GiveBlock(pool, base, index); p in next.live <==> Owned(next.regions, p)
  {
    var r := pool.regions[base];
    var next := GiveBlock(pool, base, index);
    var gone := Block(base, r.blockSize, index);
    assert WellFormed(base, r);
    BlockPlace(base, r.blockSize, index);
    hide SizeClass, Capacity, DataOffset, BitmapBytes, Block;
    assert Owned(pool.regions, p) <==> p in pool.live;
    if Base(p) != base {
      OwnedElsewhere(pool.regions, next.regions, p);
    } else {
      assert WellFormed(base, next.regions[base]);
      PointersLess(base, r, index);
    }
  }

  lemma AddPlaced(pool: Pool, base: nat, r: Region)
    requires Inv(pool) && Clear(pool, base, Extent(r)) && WellFormed(base, r) && base !in pool.regions
    ensures Placed(pool.regions[base := r])
  {
    hide WellFormed;
    var next := pool.regions[base := r];
    forall b | b in next ensures WellFormed(b, next[b]) {
      assert b != base ==> WellFormed(b, pool.regions[b]);
    }
    forall b, c | b in next && c in next && b != c ensures Apart(b, next[b], c, next[c]) {
      if b != base && c != base {
        assert Apart(b, pool.regions[b], c, pool.regions[c]);
      }
    }
  }

  /** A clear place holds no region yet. */
  lemma ClearIsNew(pool: Pool, base: nat, extent: nat)
    requires Inv(pool) && Clear(pool, base, extent) && extent > 0
    ensures base !in pool.regions
  {
    assert base in pool.regions ==> WellFormed(base, pool.regions[base]);
  }

  lemma AddSlabKeeps(pool: Pool, base: nat, blockSize: nat)
    requires Inv(pool) && Clear(pool, base, UNIT) && SizeClass(blockSize)
    ensures Inv(AddSlab(pool, base, blockSize)) && base !in pool.regions
  {
    ClearIsNew(pool, base, UNIT);
    var next := AddSlab(pool, base, blockSize);
    AddPlaced(pool, base, SlabRegion(blockSize, {}));
    hide SizeClass, Placed, Clear;
    forall p {:trigger Owned(next.regions, p)} ensures p in next.live <==> Owned(next.regions, p) {
      assert Owned(pool.regions, p) <==> p in pool.live;
      if Base(p) != base {
        OwnedElsewhere(pool.regions, next.regions, p);
      }
    }
    forall p | p in next.live ensures Fits(next, p) {
      assert Fits(pool, p);
    }
  }

  lemma AddLargeKeeps(pool: Pool, base: nat, mapping: nat, size: nat)
    requires Inv(pool) && Clear(pool, base, mapping) && 0 < size && size + LARGE_HEADER <= mapping
    ensures Inv(AddLarge(pool, base, mapping, size)) && base !in pool.regions && base + LARGE_HEADER !in pool.live
  {
    ClearIsNew(pool, base, mapping);
    var next := AddLarge(pool, base, mapping, size);
    BaseOf(base, base + LARGE_HEADER);
    AddPlaced(pool, base, LargeRegion(mapping));
    hide Placed, Clear;
    assert !Owned(pool.regions, base + LARGE_HEADER);
    forall p {:trigger Owned(next.regions, p)} ensures p in next.live <==> Owned(next.regions, p) {
      assert Owned(pool.regions, p) <==> p in pool.live;
      if Base(p) != base {
        OwnedElsewhere(pool.regions, next.regions, p);
      }
    }
    forall p | p in next.live ensures Fits(next, p) {
      assert p != base + LARGE_HEADER ==> Fits(pool, p);
    }
  }

  lemma DropLargeKeeps(pool: Pool, base: nat)
    requires Inv(pool) && base in pool.regions && pool.regions[base].LargeRegion?
    ensures Inv(DropLarge(pool, base)) && base + LARGE_HEADER in pool.live
  {
    var next := DropLarge(pool, base);
    assert WellFormed(base, pool.regions[base]);
    BaseOf(base, base + LARGE_HEADER);
    assert Owned(pool.regions, base + LARGE_HEADER);
    forall b | b in next.regions ensures WellFormed(b, next.regions[b]) {
      assert WellFormed(b, pool.regions[b]);
    }
    forall b, c | b in next.regions && c in next.regions && b != c
      ensures Apart(b, next.regions[b], c, next.regions[c]) {
      assert Apart(b, pool.regions[b], c, pool.regions[c]);
    }
    assert Placed(next.regions);
    hide Placed;
    forall p {:trigger Owned(next.regions, p)} ensures p in next.live <==> Owned(next.regions, p) {
      assert Owned(pool.regions, p) <==> p in pool.live;
      if Base(p) != base {
        OwnedElsewhere(pool.regions, next.regions, p);
      }
    }
    forall p | p in next.live ensures Fits(next, p) {
      assert Owned(next.regions, p) && Fits(pool, p);
    }
  }

  function DropSlab(pool: Pool, base: nat): Pool {
    pool.(regions := pool.regions - {base})
  }

  lemma DropSlabKeeps(pool: Pool, base: nat)
    requires Inv(pool) && base in pool.regions && pool.regions[base].SlabRegion? && pool.regions[base].live == {}
    ensures Inv(DropSlab(pool, base))
  {
    var next := DropSlab(pool, base);
    assert WellFormed(base, pool.regions[base]);
    forall b | b in next.regions ensures WellFormed(b, next.regions[b]) {
      assert WellFormed(b, pool.regions[b]);
    }
    forall b, c | b in next.regions && c in next.regions && b != c
      ensures Apart(b, next.regions[b], c, next.regions[c]) {
      assert Apart(b, pool.regions[b], c, pool.regions[c]);
    }
    assert Placed(next.regions);
    hide Placed;
    forall p {:trigger Owned(next.regions, p)} ensures p in next.live <==> Owned(next.regions, p) {
      assert Owned(pool.regions, p) <==> p in pool.live;
      if Base(p) != base {
        OwnedElsewhere(pool.regions, next.regions, p);
      }
    }
    forall p | p in next.live ensures Fits(next, p) {
      assert Owned(next.regions, p) && Fits(pool, p);
    }
  }

  // ------------------------------------------------------------------- counting

  function LiveIn(pool: Pool, visited: set<nat>): set<nat> {
    set p | p in pool.live && Base(p) in visited
  }

  lemma {:induction false} BlocksCount(base: nat, blockSize: nat, live: set<nat>)
    requires blockSize > 0
    ensures |set i | i in live :: Block(base, blockSize, i)| == |live|
    decreases |live|
  {
    hide Block;
    var image := set i | i in live :: Block(base, blockSize, i);
    if live != {} {
      var x :| x in live;
      var fewer := set i | i in live - {x} :: Block(base, blockSize, i);
      BlocksCount(base, blockSize, live - {x});
      forall i | i in live - {x} ensures Block(base, blockSize, i) != Block(base, blockSize, x) {
        if Block(base, blockSize, i) == Block(base, blockSize, x) {
          BlockInjective(base, blockSize, i, x);
        }
      }
      assert image == fewer + {Block(base, blockSize, x)};
    } else {
      assert image == {};
    }
  }

  function LiveCount(r: Region): nat {
    if r.SlabRegion? then |r.live| else 1
  }

  /** One more region adds exactly its own live objects. */
  lemma LiveInMore(pool: Pool, visited: set<nat>, base: nat)
    requires Inv(pool) && base in pool.regions && base !in visited
    ensures |LiveIn(pool, visited + {base})| == |LiveIn(pool, visited)| + LiveCount(pool.regions[base])
  {
    var r := pool.regions[base];
    assert WellFormed(base, r);
    hide SizeClass, Capacity, DataOffset, BitmapBytes, UpperCount, Placed, Block;
    var own := PointersOf(base, r);
    if r.SlabRegion? {
      assert SizeClass(r.blockSize);
      SizeClassFacts(r.blockSize);
      BlocksCount(base, r.blockSize, r.live);
    }
    OwnersHome(pool, base);
    assert LiveIn(pool, visited + {base}) == LiveIn(pool, visited) + own;
    assert LiveIn(pool, visited) !! own;
  }

  lemma OwnersHome(pool: Pool, base: nat)
    requires Inv(pool) && base in pool.regions && WellFormed(base, pool.regions[base])
    ensures forall p :: p in PointersOf(base, pool.regions[base]) <==> p in pool.live && Base(p) == base
  {
    var r := pool.regions[base];
    hide SizeClass, Capacity, DataOffset, BitmapBytes, UpperCount, Placed, Block, WellFormed;
    forall p ensures p in PointersOf(base, r) <==> p in pool.live && Base(p) == base {
      if p in PointersOf(base, r) {
        PointerHome(base, r, p);
        assert Owned(pool.regions, p);
      }
      if p in pool.live && Base(p) == base {
        assert Owned(pool.regions, p);
      }
    }
  }

  lemma PointerHome(base: nat, r: Region, p: nat)
    requires WellFormed(base, r) && p in PointersOf(base, r)
    ensures Base(p) == base
  {
    hide Capacity, DataOffset, BitmapBytes, UpperCount, SizeClass, Block, Base;
    if r.SlabRegion? {
      SizeClassFacts(r.blockSize);
      var i :| i in r.live && p == Block(base, r.blockSize, i);
      BlockPlace(base, r.blockSize, i);
    } else {
      BaseOf(base, p);
    }
  }

  lemma LiveInAll(pool: Pool)
    requires Inv(pool)
    ensures |LiveIn(pool, pool.regions.Keys)| == |pool.live|
  {
    forall p | p in pool.live ensures Base(p) in pool.regions {
      assert Owned(pool.regions, p);
    }
    assert LiveIn(pool, pool.regions.Keys) == pool.live.Keys;
    KeyCount(pool.live);
  }

  lemma {:induction false} KeyCount(m: map<nat, nat>)
    ensures |m.Keys| == |m|
    decreases |m|
  {
    if m != map[] {
      var k :| k in m;
      var less := m - {k};
      assert less.Keys == m.Keys - {k};
      assert m == less[k := m[k]];
      assert |less| < |m|;
      KeyCount(less);
    }
  }
}
