/** The pool allocator as a whole (src/memory/kvs_allocator.c): size classes of slabs, large
    objects, and finding the owner of a pointer by masking its address. */
module Allocator {
  import opened PoolLayout
  import opened Slabs
  import opened Regions
  import opened Bytes

  const CLASS_COUNT: nat := 16

  /** What the first field of a region says it is. */
  datatype Header = SlabHeader(slab: Slab) | LargeHeader(large: Large)

  /** The smallest class that can hold `size`; CLASS_COUNT when none can. */
  function ClassOf(size: nat): (c: nat)
    ensures c <= CLASS_COUNT
  {
    ClassFrom(size, 0)
  }

  function ClassFrom(size: nat, from: nat): (c: nat)
    requires from <= CLASS_COUNT
    ensures from <= c <= CLASS_COUNT
    ensures c < CLASS_COUNT ==> size <= BLOCK_SIZES[c]
    ensures forall d :: from <= d < c ==> BLOCK_SIZES[d] < size
    decreases CLASS_COUNT - from
  {
    if from == CLASS_COUNT || size <= BLOCK_SIZES[from] then from else ClassFrom(size, from + 1)
  }

  /** A class is the class of its own block size. */
  lemma OwnClass(c: nat)
    requires c < CLASS_COUNT
    ensures SizeClass(BLOCK_SIZES[c]) && ClassOf(BLOCK_SIZES[c]) == c
  {
    hide ClassFrom;
    var d := ClassFrom(BLOCK_SIZES[c], 0);
    ClassesGrow(c, d);
    ClassesGrow(d, c);
    ClassFromFacts(BLOCK_SIZES[c]);
  }

  lemma ClassFromFacts(size: nat)
    ensures var c := ClassFrom(size, 0);
            && c <= CLASS_COUNT && (c < CLASS_COUNT ==> size <= BLOCK_SIZES[c])
            && forall d :: 0 <= d < c ==> BLOCK_SIZES[d] < size
  {
    hide ClassFrom;
  }

  lemma {:induction false} ClassesGrow(i: nat, j: nat)
    ensures i < j < CLASS_COUNT ==> BLOCK_SIZES[i] < BLOCK_SIZES[j]
    decreases j
  {
    if i < j < CLASS_COUNT {
      ClassGrows(j - 1);
      ClassesGrow(i, j - 1);
    }
  }

  lemma ClassGrows(i: nat)
    ensures i + 1 < CLASS_COUNT ==> BLOCK_SIZES[i] < BLOCK_SIZES[i + 1]
  {
  }

  lemma ClassFits(size: nat)
    requires ClassOf(size) < CLASS_COUNT
    ensures size <= BLOCK_SIZES[ClassOf(size)] <= MAX_BLOCK
  {
    OwnClass(ClassOf(size));
    SizeClassFacts(BLOCK_SIZES[ClassOf(size)]);
    hide SizeClass;
  }

  lemma SmallHasClass(size: nat)
    ensures size <= MAX_BLOCK ==> ClassOf(size) < CLASS_COUNT
  {
    ClassFromFacts(size);
    assert BLOCK_SIZES[CLASS_COUNT - 1] == MAX_BLOCK;
    hide ClassFrom;
  }

  /** The sixteen lists, all empty. */
  method NewLists() returns (lists: seq<SlabList>)
    ensures |lists| == CLASS_COUNT && (forall c :: 0 <= c < CLASS_COUNT ==> fresh(lists[c]))
    ensures forall c :: 0 <= c < CLASS_COUNT ==>
              lists[c].Valid() && lists[c].list == [] && lists[c].blockSize == BLOCK_SIZES[c]
  {
    hide SlabList.Valid, SizeClass, ClassOf, ClassFrom;
    lists := [];
    for c := 0 to CLASS_COUNT
      invariant |lists| == c && forall d :: 0 <= d < c ==> fresh(lists[d])
      invariant forall d :: 0 <= d < c ==>
                  lists[d].Valid() && lists[d].list == [] && lists[d].blockSize == BLOCK_SIZES[d]
    {
      OwnClass(c);
      var list := new SlabList(BLOCK_SIZES[c]);
      lists := lists + [list];
    }
  }

  class PoolAllocator {
    const space: AddressSpace
    const pools: seq<SlabList>
    const larges: LargeList
    var initialized: bool
    var headers: map<nat, Header>
    ghost var slabs: set<Slab>
    ghost var pool: Pool

    ghost predicate Shape()
    {
      |pools| == CLASS_COUNT && forall c {:trigger pools[c]} :: 0 <= c < CLASS_COUNT ==>
        pools[c].blockSize == BLOCK_SIZES[c]
    }

    /** One size class: its list is in order, and its slabs are known. */
    ghost predicate ClassOk(c: nat)
      requires Shape() && c < CLASS_COUNT
      reads this, pools, slabs
    {
      && (forall s {:trigger s in pools[c].list} {:trigger s in slabs} :: s in pools[c].list ==> s in slabs)
      && pools[c].Valid()
    }

    ghost predicate SlabOk(s: Slab)
      requires Shape()
      reads this, pools, s
    {
      && s.Valid() && s.base in headers && headers[s.base] == SlabHeader(s)
      && s.base in pool.regions && pool.regions[s.base] == s.View()
      && ClassOf(s.blockSize) < CLASS_COUNT && s in pools[ClassOf(s.blockSize)].list
    }

    ghost predicate LargeOk(l: Large)
      reads this
    {
      && l.base in headers && headers[l.base] == LargeHeader(l)
      && l.base in pool.regions && pool.regions[l.base] == LargeRegion(l.mapping)
    }

    ghost predicate HeaderOk(b: nat)
      requires b in headers
      reads this, larges
    {
      match headers[b]
      case SlabHeader(s) => s in slabs && s.base == b
      case LargeHeader(l) => l in larges.list && l.base == b
    }

    ghost predicate Reserved(b: nat)
      requires b in pool.regions
      reads this, space
    {
      Span(b, Extent(pool.regions[b])) <= space.mapped
    }

    ghost predicate Valid()
      reads this, pools, slabs, larges, larges.list, space
    {
      && Shape()
      && (forall c {:trigger ClassOk(c)} :: 0 <= c < CLASS_COUNT ==> ClassOk(c))
      && (forall s {:trigger SlabOk(s)} :: s in slabs ==> SlabOk(s))
      && larges.Valid()
      && (forall l {:trigger LargeOk(l)} :: l in larges.list ==> LargeOk(l))
      && (forall b {:trigger HeaderOk(b)} :: b in headers ==> HeaderOk(b))
      && headers.Keys == pool.regions.Keys
      && Inv(pool)
      && (forall b {:trigger Reserved(b)} :: b in pool.regions ==> Reserved(b))
      && (!initialized ==> slabs == {} && larges.list == [])
    }

    constructor (space: AddressSpace)
      ensures Valid() && !initialized && pool == EMPTY && this.space == space
    {
      hide Span, SizeClass;
      this.space := space;
      var lists := NewLists();
      pools := lists;
      larges := new LargeList();
      initialized := false;
      headers := map[];
      slabs := {};
      pool := EMPTY;
    }

    // ------------------------------------------------------------------ small objects

    /** `find_size_class`. */
    method FindSizeClass(size: nat) returns (c: nat)
      requires Shape()
      ensures c == ClassOf(size)
    {
      c := 0;
      while c < CLASS_COUNT
        invariant c <= CLASS_COUNT && ClassFrom(size, 0) == ClassFrom(size, c)
      {
        if size <= pools[c].blockSize { return; }
        c := c + 1;
      }
    }

    /** After a change inside one slab that `pool` follows, everything else still fits. */
    twostate lemma SlabChanged(slab: Slab)
      requires old(Valid()) && old(initialized) && slab in slabs
      requires unchanged(`headers, `slabs, `initialized) && unchanged(pools, larges, space)
      requires unchanged(old(larges.list))
      requires forall s {:trigger s in slabs} :: s in slabs && s != slab ==> unchanged(s)
      requires slab.Valid() && slab.next == old(slab.next)
      requires Inv(pool) && pool.regions == old(pool.regions)[slab.base := slab.View()]
      ensures Valid()
    {
      hide Slab.Valid, Inv, Slab.Live, Span, SizeClass, SlabList.Valid, LargeList.Valid;
      assert old(SlabOk(slab));
      forall c: nat | c < CLASS_COUNT ensures ClassOk(c) {
        assert old(ClassOk(c));
        pools[c].StillValid(slab);
      }
      forall s | s in slabs ensures SlabOk(s) {
        assert old(SlabOk(s));
      }
      forall l | l in larges.list ensures LargeOk(l) {
        assert old(LargeOk(l));
      }
      forall b | b in headers ensures HeaderOk(b) {
        assert old(HeaderOk(b));
      }
      forall b | b in pool.regions ensures Reserved(b) {
        assert old(Reserved(b));
      }
    }

    /** A block of a slab with room: `slab_alloc_block` seen from the pool. */
    method TakeFrom(slab: Slab, size: nat) returns (ptr: nat)
      requires Valid() && initialized && slab in slabs && slab.freeList != 0 && 0 < size <= slab.blockSize
      modifies this`pool, slab
      ensures Valid() && ptr != 0 && ptr !in old(pool.live) && pool.live == old(pool.live)[ptr := size]
      ensures Base(ptr) == slab.base && pool.regions.Keys == old(pool.regions.Keys)
      ensures slab.base in pool.regions && pool.regions[slab.base].SlabRegion?
              && pool.regions[slab.base].blockSize == slab.blockSize
    {
      hide Slab.Valid, Inv, Slab.Live, Span, SizeClass, Capacity, DataOffset, Block, SlabList.Valid, LargeList.Valid;
      assert SlabOk(slab);
      slab.PlacedRight();
      ghost var index;
      label L:
      ptr, index := slab.AllocBlock();
      BlockPlace(slab.base, slab.blockSize, index);
      TakeBlockKeeps(pool, slab.base, index, size);
      pool := TakeBlock(pool, slab.base, index, size);
      SlabChanged@L(slab);
    }
  
    /** A clear place for a region: nothing mapped before overlaps it. */
    lemma ClearPlace(before: set<nat>, region: nat, extent: nat)
      requires Placed(pool.regions) && region % UNIT == 0 && region > 0 && extent > 0 && Span(region, extent) !! before
      requires forall b {:trigger b in pool.regions} :: b in pool.regions ==> Span(b, Extent(pool.regions[b])) <= before
      ensures Clear(pool, region, extent)
    {
      hide Span, SizeClass, Capacity;
      forall b | b in pool.regions ensures region + extent <= b || b + Extent(pool.regions[b]) <= region {
        assert WellFormed(b, pool.regions[b]);
        SpansApart(region, extent, b, Extent(pool.regions[b]));
      }
    }

    twostate lemma SlabAdded(c: nat, new slab: Slab)
      requires c < CLASS_COUNT && old(Valid()) && old(initialized) && Shape()
      requires unchanged(`initialized) && unchanged(larges)
      requires unchanged(old(larges.list))
      requires old(headers.Keys) == old(pool.regions.Keys) && slab.base !in old(headers) && slab !in old(slabs)
      requires forall d {:trigger pools[d]} :: 0 <= d < CLASS_COUNT && d != c ==> unchanged(pools[d])
      requires forall s {:trigger s in old(slabs)} :: s in old(slabs) ==> unchanged(s)
      requires headers == old(headers)[slab.base := SlabHeader(slab)] && slabs == old(slabs) + {slab}
      requires pools[c].Valid() && pools[c].list == [slab] + old(pools[c].list) && slab.Valid()
               && slab.blockSize == BLOCK_SIZES[c]
      requires pool.regions == old(pool.regions)[slab.base := slab.View()] && Inv(pool)
      requires space.mapped == old(space.mapped) + Span(slab.base, UNIT)
      ensures Valid()
    {
      hide Slab.Valid, Inv, Slab.Live, Span, SizeClass, SlabList.Valid, LargeList.Valid, ClassOf;
      OwnClass(c);
      forall d: nat | d < CLASS_COUNT ensures ClassOk(d) {
        assert old(ClassOk(d));
        if d == c {
          forall s {:trigger s in pools[c].list} | s in pools[c].list ensures s in slabs {
            assert s == slab || s in old(pools[c].list);
          }
        } else {
          assert unchanged(pools[d]);
          forall s {:trigger s in pools[d].list} | s in pools[d].list ensures s in slabs && unchanged(s) {
            assert s in old(pools[d].list) && s in old(slabs);
          }
          pools[d].Untouched();
        }
      }
      forall s | s in slabs ensures SlabOk(s) {
        if s != slab {
          assert old(SlabOk(s));
        }
      }
      forall l | l in larges.list ensures LargeOk(l) {
        assert old(LargeOk(l));
      }
      forall b | b in headers ensures HeaderOk(b) {
        if b != slab.base {
          assert old(HeaderOk(b));
        }
      }
      forall b | b in pool.regions ensures Reserved(b) {
        if b != slab.base {
          assert old(Reserved(b));
        }
      }
    }

    /** Memory for one more region. */
    method Reserve(extent: nat) returns (region: nat)
      requires Valid() && extent > 0
      modifies space
      ensures Valid()
      ensures region != 0 ==>
                && region % UNIT == 0 && Clear(pool, region, extent)
                && space.mapped == old(space.mapped) + Span(region, extent)
      ensures region == 0 <==> !Mappable(space.pageSize, extent) || space.refusals > old(space.refusals)
      ensures old(space.refusals) <= space.refusals
    {
      hide Slab.Valid, Inv, Slab.Live, Span, SizeClass, SlabList.Valid, LargeList.Valid, ClassOf, Clear;
      region := RegionMemoryAlloc(space, extent);
      MoreMapped();
      if region != 0 {
        PlacedOf();
        forall b {:trigger b in pool.regions} | b in pool.regions
          ensures Span(b, Extent(pool.regions[b])) <= old(space.mapped) {
          assert old(Reserved(b));
        }
        ClearPlace(old(space.mapped), region, extent);
      }
    }

    lemma ClassFacts(c: nat)
      requires Valid() && c < CLASS_COUNT
      ensures Shape() && Inv(pool) && headers.Keys == pool.regions.Keys
      ensures pools[c].Valid() && pools[c].blockSize == BLOCK_SIZES[c]
      ensures forall s {:trigger s in pools[c].list} :: s in pools[c].list ==> s in slabs && s.base in pool.regions
    {
      hide Slab.Valid, Inv, Slab.Live, Span, SizeClass, SlabList.Valid, LargeList.Valid, ClassOf;
      assert ClassOk(c);
      forall s {:trigger s in pools[c].list} | s in pools[c].list ensures s.base in pool.regions {
        assert SlabOk(s);
      }
    }

    /** A new slab at the front of its class; none when the kernel gives no memory. */
    method NewSlab(c: nat) returns (slab: Slab?)
      requires Valid() && initialized && c < CLASS_COUNT
      modifies this`pool, this`headers, this`slabs, pools, space
      ensures Valid() && pool.live == old(pool.live) && fresh(slabs - old(slabs)) && old(slabs) <= slabs
      ensures slab == null ==> pool == old(pool) && slabs == old(slabs)
      ensures slab == null <==> !Mappable(space.pageSize, UNIT) || space.refusals > old(space.refusals)
      ensures slab != null ==> slab in slabs && fresh(slab) && slab.freeList != 0 && slab.blockSize == BLOCK_SIZES[c]
    {
      hide Slab.Valid, Inv, Slab.Live, Span, SizeClass, Capacity, DataOffset, Block, SlabList.Valid, LargeList.Valid,
           ClassOf, Clear, Valid;
      var region := Reserve(UNIT);
      if region == 0 { return null; }
      ClassFacts(c);
      OwnClass(c);
      AddSlabKeeps(pool, region, BLOCK_SIZES[c]);
      slab := new Slab(region, BLOCK_SIZES[c]);
      pools[c].Push(slab);
      headers := headers[region := SlabHeader(slab)];
      slabs := slabs + {slab};
      pool := AddSlab(pool, region, BLOCK_SIZES[c]);
      SlabAdded(c, slab);
    }

    lemma PlacedOf()
      requires Inv(pool)
      ensures Placed(pool.regions)
    {
      hide Placed;
    }

    twostate lemma MoreMapped()
      requires old(Valid()) && unchanged(this, pools, larges) && old(space.mapped) <= space.mapped
      requires forall s {:trigger s in old(slabs)} :: s in old(slabs) ==> unchanged(s)
      requires unchanged(old(larges.list))
      ensures Valid()
    {
      hide Slab.Valid, Inv, Slab.Live, Span, SizeClass, SlabList.Valid, LargeList.Valid, ClassOf;
      forall d: nat | d < CLASS_COUNT ensures ClassOk(d) {
        assert old(ClassOk(d));
      }
      forall s | s in slabs ensures SlabOk(s) {
        assert old(SlabOk(s));
      }
      forall l | l in larges.list ensures LargeOk(l) {
        assert old(LargeOk(l));
      }
      forall b | b in headers ensures HeaderOk(b) {
        assert old(HeaderOk(b));
      }
      forall b | b in pool.regions ensures Reserved(b) {
        assert old(Reserved(b));
      }
    }

    /** Every slab of the class is full. */
    ghost predicate ClassFull(c: nat)
      requires c < |pools|
      reads pools, pools[c].list
    {
      forall s {:trigger s in pools[c].list} :: s in pools[c].list ==> s.freeList == 0
    }

    /** A slab of the class with a free block, new if necessary. */
    method FindRoom(c: nat) returns (slab: Slab?)
      requires Valid() && initialized && c < CLASS_COUNT
      modifies this`pool, this`headers, this`slabs, pools, space
      ensures Valid() && pool.live == old(pool.live) && fresh(slabs - old(slabs)) && old(slabs) <= slabs
      ensures slab == null ==> pool == old(pool)
      ensures slab != null ==> slab in slabs && slab.freeList != 0 && slab.blockSize == BLOCK_SIZES[c]
      ensures Shape() && (slab == null || pool != old(pool) ==> old(ClassFull(c)))
      ensures slab == null <==>
                old(ClassFull(c)) && (!Mappable(space.pageSize, UNIT) || space.refusals > old(space.refusals))
    {
      hide Slab.Valid, Inv, Slab.Live, Span, SizeClass, SlabList.Valid, LargeList.Valid, ClassOf;
      assert ClassOk(c);
      slab := pools[c].FindFree();
      if slab == null {
        slab := NewSlab(c);
      } else {
        InClass(c, slab);
      }
    }

    /** `pool_alloc_small`. */
    method AllocSmall(size: nat) returns (ptr: nat)
      requires Valid() && initialized
      modifies this`pool, this`headers, this`slabs, pools, slabs, space
      ensures Valid() && fresh(slabs - old(slabs)) && old(slabs) <= slabs
      ensures ptr == 0 ==> pool == old(pool)
      ensures ptr != 0 ==> 0 < size <= MAX_BLOCK && ptr !in old(pool.live) && pool.live == old(pool.live)[ptr := size]
      ensures ptr != 0 ==>
                && ClassOf(size) < CLASS_COUNT && Base(ptr) in pool.regions
                && pool.regions[Base(ptr)].SlabRegion?
                && pool.regions[Base(ptr)].blockSize == BLOCK_SIZES[ClassOf(size)]
      ensures Shape() && (0 < size <= MAX_BLOCK ==> ClassOf(size) < CLASS_COUNT)
      ensures ptr == 0 <==>
                || size == 0 || size > MAX_BLOCK
                || (old(ClassFull(ClassOf(size)))
                    && (!Mappable(space.pageSize, UNIT) || space.refusals > old(space.refusals)))
      ensures ptr != 0 && pool.regions.Keys != old(pool.regions.Keys) ==> old(ClassFull(ClassOf(size)))
    {
      hide Valid, Shape, SizeClass, ClassOf, ClassFrom, ClassFull;
      ShapeOf();
      SmallHasClass(size);
      if size == 0 { return 0; }
      var c := FindSizeClass(size);
      if c == CLASS_COUNT { return 0; }
      ClassFits(size);
      var slab := FindRoom(c);
      if slab == null { return 0; }
      ptr := TakeFrom(slab, size);
    }

    lemma ShapeOf()
      requires Valid()
      ensures Shape() && |pools| == CLASS_COUNT
    {
    }

    lemma InClass(c: nat, s: Slab)
      requires Shape() && c < CLASS_COUNT && ClassOk(c) && s in pools[c].list
      ensures s in slabs && s.blockSize == BLOCK_SIZES[c]
    {
      hide Slab.Valid;
      assert pools[c].blockSize == BLOCK_SIZES[c] && s.Valid();
    }

    /** `pool_free_small` seen from the pool: exactly the pointers in use are taken back. */
    method FreeSmall(slab: Slab, ptr: nat) returns (result: int)
      requires Valid() && initialized && slab in slabs && ptr != 0 && Base(ptr) == slab.base
      modifies this`pool, slab
      ensures Valid() && (result == 0 || result == -1)
      ensures result == 0 <==> ptr in old(pool.live)
      ensures result == 0 ==> pool.live == old(pool.live) - {ptr}
      ensures result == -1 ==> pool == old(pool)
    {
      hide Slab.Valid, Inv, Slab.Live, Span, SizeClass, Capacity, DataOffset, Block, SlabList.Valid, LargeList.Valid;
      assert SlabOk(slab);
      slab.PlacedRight();
      slab.ViewWellFormed();
      OwnersHome(pool, slab.base);
      ghost var index;
      label L:
      result, index := slab.FreeBlock(ptr);
      if result == 0 {
        GiveBlockKeeps(pool, slab.base, index);
        pool := GiveBlock(pool, slab.base, index);
      }
      SlabChanged@L(slab);
    }

    // ------------------------------------------------------------------ large objects

    twostate lemma LargeAdded(new large: Large)
      requires old(Valid()) && old(initialized) && Shape()
      requires unchanged(`initialized, `slabs) && unchanged(pools)
      requires forall s {:trigger s in old(slabs)} :: s in old(slabs) ==> unchanged(s)
      requires large.base !in old(headers) && headers == old(headers)[large.base := LargeHeader(large)]
      requires larges.Valid() && larges.list == [large] + old(larges.list)
      requires pool.regions == old(pool.regions)[large.base := LargeRegion(large.mapping)] && Inv(pool)
      requires space.mapped == old(space.mapped) + Span(large.base, large.mapping)
      ensures Valid()
    {
      hide Slab.Valid, Inv, Slab.Live, Span, SizeClass, SlabList.Valid, LargeList.Valid, ClassOf;
      forall d: nat | d < CLASS_COUNT ensures ClassOk(d) {
        assert old(ClassOk(d));
        forall s {:trigger s in pools[d].list} | s in pools[d].list ensures s in slabs && unchanged(s) {
          assert s in old(pools[d].list) && s in old(slabs);
        }
        pools[d].Untouched();
      }
      forall s | s in slabs ensures SlabOk(s) {
        assert old(SlabOk(s));
      }
      forall l | l in larges.list ensures LargeOk(l) {
        assert l == large || old(LargeOk(l));
      }
      forall b | b in headers ensures HeaderOk(b) {
        assert b == large.base || old(HeaderOk(b));
      }
      forall b | b in pool.regions ensures Reserved(b) {
        assert b == large.base || old(Reserved(b));
      }
    }

    /** The length of the mapping for a large object: whole pages, 0 exactly when no such length
        fits a `size_t`. */
    method MappingSize(size: nat) returns (mapping: nat)
      requires size > 0
      ensures mapping == 0 <==>
                space.pageSize <= 0
                || forall m: nat {:trigger m % space.pageSize} ::
                  m % space.pageSize == 0 && m >= LARGE_HEADER + size ==> m > SIZE_MAX
      ensures mapping != 0 ==>
                space.pageSize > 0 && mapping % space.pageSize == 0
                && LARGE_HEADER + size <= mapping < LARGE_HEADER + size + space.pageSize
      ensures mapping <= SIZE_MAX
      ensures mapping != 0 ==>
                forall m: nat {:trigger m % space.pageSize} ::
                  m % space.pageSize == 0 && m >= LARGE_HEADER + size ==> m >= mapping
    {
      if space.pageSize <= 0 { return 0; }
      var offset := ((LARGE_HEADER + ALIGNMENT - 1) / ALIGNMENT) * ALIGNMENT;
      if offset >= UNIT || size > SIZE_MAX - offset { return 0; }
      var total := offset + size;
      var remainder := total % space.pageSize;
      var padding := if remainder == 0 then 0 else space.pageSize - remainder;
      Padded(total, space.pageSize);
      if total > SIZE_MAX - padding {
        forall m: nat | m % space.pageSize == 0 && m >= total ensures m > SIZE_MAX {
          LeastPadded(total, space.pageSize, m);
        }
        return 0;
      }
      mapping := total + padding;
      assert mapping % space.pageSize == 0;
      forall m: nat | m % space.pageSize == 0 && m >= total ensures m >= mapping {
        LeastPadded(total, space.pageSize, m);
      }
    }

    static lemma Padded(total: nat, page: nat)
      requires page > 0
      ensures (total + if total % page == 0 then 0 else page - total % page) % page == 0
    {
      if total % page != 0 {
        var q := total / page;
        assert total + (page - total % page) == (q + 1) * page;
        Quotient(q + 1, page);
      }
    }

    /** No multiple of the page size lies between. */
    static lemma LeastPadded(total: nat, page: nat, m: nat)
      requires page > 0 && m % page == 0 && m >= total
      ensures total + (if total % page == 0 then 0 else page - total % page) <= m
    {
      if total % page != 0 {
        var q, r := total / page, m / page;
        assert m == r * page && total == q * page + total % page;
        if r > q {
          Multiples(q + 1, r, page);
        } else {
          Multiples(r, q, page);
        }
      }
    }

    static lemma Multiples(i: nat, j: nat, d: nat)
      requires i <= j
      ensures i * d <= j * d
    {
    }

    /** Some whole number of pages holds header and object and leaves room to align. */
    ghost predicate FitsSpace(size: nat) {
      && space.pageSize > 0 && UNIT % space.pageSize == 0
      && exists m: nat {:trigger m % space.pageSize} ::
           m % space.pageSize == 0 && m >= LARGE_HEADER + size && m <= SIZE_MAX - UNIT
    }

    /** `pool_alloc_large`. */
    method AllocLarge(size: nat) returns (ptr: nat)
      requires Valid() && initialized && size > 0
      modifies this`pool, this`headers, larges, larges.list, space
      ensures Valid() && (larges.list == old(larges.list)
                          || (larges.list != [] && fresh(larges.list[0]) && larges.list[1..] == old(larges.list)))
      ensures ptr == 0 ==> pool == old(pool)
      ensures ptr != 0 ==> ptr !in old(pool.live) && pool.live == old(pool.live)[ptr := size]
      ensures ptr != 0 ==>
                && Base(ptr) in pool.regions && pool.regions[Base(ptr)].LargeRegion? && space.pageSize > 0
                && pool.regions[Base(ptr)].mapping % space.pageSize == 0
                && pool.regions[Base(ptr)].mapping < LARGE_HEADER + size + space.pageSize
      ensures ptr == 0 <==> !FitsSpace(size) || space.refusals > old(space.refusals)
    {
      hide Slab.Valid, Inv, Slab.Live, Span, SizeClass, SlabList.Valid, LargeList.Valid, ClassOf, Clear;
      var mapping := MappingSize(size);
      if mapping == 0 { return 0; }
      var region := Reserve(mapping);
      if region == 0 { return 0; }
      label R:
      BaseOf(region, region + LARGE_HEADER);
      AddLargeKeeps(pool, region, mapping, size);
      var large := new Large(region, mapping);
      forall l {:trigger l in larges.list} | l in larges.list ensures l.base != region {
        assert old@R(LargeOk(l));
      }
      larges.Insert(large);
      headers := headers[region := LargeHeader(large)];
      pool := AddLarge(pool, region, mapping, size);
      LargeAdded(large);
      return region + LARGE_HEADER;
    }

    twostate lemma LargeRemoved(large: Large)
      requires old(Valid()) && old(initialized) && Shape() && large in old(larges.list)
      requires unchanged(`initialized, `slabs) && unchanged(pools)
      requires forall s {:trigger s in old(slabs)} :: s in old(slabs) ==> unchanged(s)
      requires headers == old(headers) - {large.base}
      requires larges.Valid() && DistinctLarge(old(larges.list)) && Without(old(larges.list), large, larges.list)
      requires pool.regions == old(pool.regions) - {large.base} && Inv(pool)
      requires space.mapped == old(space.mapped) - Span(large.base, large.mapping)
      ensures Valid()
    {
      hide Slab.Valid, Slab.Live, Inv, Span, SizeClass, SlabList.Valid, LargeList.Valid, ClassOf, Without;
      assert old(LargeOk(large));
      RemovedList(old(larges.list), large, larges.list);
      forall d: nat | d < CLASS_COUNT ensures ClassOk(d) {
        assert old(ClassOk(d));
        forall s {:trigger s in pools[d].list} | s in pools[d].list ensures s in slabs && unchanged(s) {
          assert s in old(pools[d].list) && s in old(slabs);
        }
        pools[d].Untouched();
      }
      forall s | s in slabs ensures SlabOk(s) {
        assert old(SlabOk(s));
      }
      forall l | l in larges.list ensures LargeOk(l) {
        assert l in old(larges.list) && l != large && old(LargeOk(l));
      }
      forall b | b in headers ensures HeaderOk(b) {
        assert old(HeaderOk(b));
      }
      forall b | b in pool.regions ensures Reserved(b) {
        assert old(Reserved(b));
        OtherSpan(old(pool), b, large.base);
      }
    }

    lemma RemovedList(before: seq<Large>, large: Large, after: seq<Large>)
      requires Without(before, large, after) && DistinctLarge(before)
      ensures forall l {:trigger l in after} {:trigger l in before} :: l in after <==> l in before && l != large
    {
      var k :| 0 <= k < |before| && before[k] == large && after == before[..k] + before[k + 1..];
      assert before == before[..k] + [large] + before[k + 1..];
    }

    static lemma OtherSpan(pool: Pool, b: nat, c: nat)
      requires Inv(pool) && b in pool.regions && c in pool.regions && b != c
      ensures Span(b, Extent(pool.regions[b])) !! Span(c, Extent(pool.regions[c]))
    {
      hide Span;
      OtherRegion(pool, b, c);
      ApartSpans(b, Extent(pool.regions[b]), c, Extent(pool.regions[c]));
    }

    /** `pool_free_large`: when the kernel refuses to unmap the region, nothing changes. */
    method FreeLarge(large: Large) returns (result: int)
      requires Valid() && initialized && large in larges.list
      modifies this`pool, this`headers, larges, larges.list, space
      ensures Valid() && (result == 0 || result == -1)
      ensures large.base + LARGE_HEADER in old(pool.live)
      ensures result == 0 ==> pool.live == old(pool.live) - {large.base + LARGE_HEADER}
      ensures result == -1 ==> pool == old(pool)
      ensures result == -1 <==> space.refusals > old(space.refusals)
    {
      hide Slab.Valid, Slab.Live, Inv, Span, SizeClass, SlabList.Valid, ClassOf, Without;
      assert LargeOk(large);
      DropLargeKeeps(pool, large.base);
      assert DistinctLarge(larges.list);
      hide LargeList.Valid;
      result := larges.Remove(large, space);
      if result == 0 {
        headers := headers - {large.base};
        pool := DropLarge(pool, large.base);
        LargeRemoved(large);
      } else {
        LargeKept();
      }
    }

    twostate lemma LargeKept()
      requires old(Valid()) && unchanged(this) && unchanged(pools) && space.mapped == old(space.mapped)
      requires forall s {:trigger s in old(slabs)} :: s in old(slabs) ==> unchanged(s)
      requires larges.Valid() && larges.list == old(larges.list)
      ensures Valid()
    {
      hide Slab.Valid, Slab.Live, Inv, Span, SizeClass, SlabList.Valid, LargeList.Valid, ClassOf;
      forall d: nat | d < CLASS_COUNT ensures ClassOk(d) {
        assert old(ClassOk(d));
        forall s {:trigger s in pools[d].list} | s in pools[d].list ensures s in slabs && unchanged(s) {
          assert s in old(pools[d].list) && s in old(slabs);
        }
        pools[d].Untouched();
      }
      forall s | s in slabs ensures SlabOk(s) {
        assert old(SlabOk(s));
      }
      forall l | l in larges.list ensures LargeOk(l) {
        assert old(LargeOk(l));
      }
      forall b | b in headers ensures HeaderOk(b) {
        assert old(HeaderOk(b));
      }
      forall b | b in pool.regions ensures Reserved(b) {
        assert old(Reserved(b));
      }
    }

    /** Masking a pointer in use finds the header of the region it came from. */
    lemma OwnHeader(ptr: nat)
      requires Valid() && ptr in pool.live
      ensures Base(ptr) in headers && ptr % ALIGNMENT == 0
      ensures match headers[Base(ptr)]
              case SlabHeader(s) =>
                && s in slabs && s.base == Base(ptr) && s.blockSize > 0
                && exists i :: i in s.Live() && ptr == Block(s.base, s.blockSize, i)
              case LargeHeader(l) => l in larges.list && ptr == l.base + LARGE_HEADER
    {
      hide Slab.Valid, Slab.Live, Inv, Span, SizeClass, SlabList.Valid, LargeList.Valid, ClassOf, Block, Capacity;
      PointerPlace(pool, ptr);
      assert HeaderOk(Base(ptr));
      match headers[Base(ptr)] {
        case SlabHeader(s) =>
          assert SlabOk(s);
          s.PlacedRight();
        case LargeHeader(l) =>
          assert LargeOk(l);
      }
    }

    // ---------------------------------------------------------------- the interface

    /** `kvs_allocator_alloc`: a new object that overlaps nothing in use, or none. */
    method Alloc(size: nat) returns (ptr: nat)
      requires Valid()
      modifies this`pool, this`headers, this`slabs, pools, slabs, larges, larges.list, space
      ensures Valid() && fresh(slabs - old(slabs))
      ensures !initialized || size == 0 ==> ptr == 0
      ensures ptr == 0 ==> pool == old(pool)
      ensures ptr != 0 ==> ptr !in old(pool.live) && pool.live == old(pool.live)[ptr := size]
      ensures ptr != 0 ==> Base(ptr) in pool.regions && (pool.regions[Base(ptr)].SlabRegion? <==> size <= MAX_BLOCK)
      ensures |pools| == CLASS_COUNT && (size <= MAX_BLOCK ==> ClassOf(size) < CLASS_COUNT)
      ensures ptr == 0 <==>
                || !initialized || size == 0
                || (if size > MAX_BLOCK then !FitsSpace(size) || space.refusals > old(space.refusals)
                    else old(ClassFull(ClassOf(size)))
                         && (!Mappable(space.pageSize, UNIT) || space.refusals > old(space.refusals)))
    {
      hide Valid, ClassOf, ClassFull;
      ShapeOf();
      SmallHasClass(size);
      if !initialized || size == 0 { return 0; }
      if size > MAX_BLOCK {
        ptr := AllocLarge(size);
      } else {
        ptr := AllocSmall(size);
      }
    }

    /** `kvs_allocator_free`; `aborted` when the process would stop. The pointer has to lie in
        the first unit of a region. A pointer in use is always taken back, unless the kernel
        refuses to unmap a large object; a slab refuses every other pointer. */
    method Free(ptr: nat) returns (aborted: bool)
      requires Valid() && (ptr == 0 || Base(ptr) in headers)
      modifies this`pool, this`headers, slabs, larges, larges.list, space
      ensures Valid()
      ensures ptr == 0 ==> !aborted
      ensures ptr != 0 && !old(initialized) ==> aborted
      ensures ptr == 0 || aborted ==> pool == old(pool)
      ensures ptr != 0 && old(initialized) && old(pool.regions[Base(ptr)]).LargeRegion? ==>
                (aborted <==> space.refusals > old(space.refusals))
      ensures ptr != 0 && !aborted && ptr in old(pool.live) ==> pool.live == old(pool.live) - {ptr}
      ensures ptr != 0 && !aborted && old(pool.regions[Base(ptr)]).LargeRegion? ==>
                pool.live == old(pool.live) - {Base(ptr) + LARGE_HEADER}
      ensures ptr != 0 && old(initialized) && old(pool.regions[Base(ptr)]).SlabRegion? ==>
                (aborted <==> ptr !in old(pool.live))
    {
      hide Slab.Valid, Slab.Live, Inv, Span, SizeClass, SlabList.Valid, LargeList.Valid, ClassOf;
      if ptr == 0 { return false; }
      if !initialized { return true; }
      var start := Base(ptr);
      assert HeaderOk(start);
      var result;
      match headers[start] {
        case SlabHeader(slab) =>
          assert SlabOk(slab);
          result := FreeSmall(slab, ptr);
        case LargeHeader(large) =>
          assert LargeOk(large);
          if ptr in pool.live {
            OnlyPointer(ptr);
          }
          result := FreeLarge(large);
      }
      return result != 0;
    }

    lemma OnlyPointer(ptr: nat)
      requires Inv(pool) && Base(ptr) in pool.regions && pool.regions[Base(ptr)].LargeRegion? && ptr in pool.live
      ensures ptr == Base(ptr) + LARGE_HEADER
    {
      PointerPlace(pool, ptr);
    }

    // ------------------------------------------------------------------- statistics

    static function Bases(seen: set<Slab>): set<nat> {
      set s | s in seen :: s.base
    }

    static function LargeBases(seen: seq<Large>): set<nat> {
      set l | l in seen :: l.base
    }

    static function LargeBytes(list: seq<Large>): nat {
      if list == [] then 0 else LargeBytes(list[..|list| - 1]) + list[|list| - 1].mapping
    }

    /** What has been counted when the slabs `seen` were visited. */
    ghost predicate Counted(seen: set<Slab>, objects: nat, count: nat)
      reads this
    {
      objects == |LiveIn(pool, Bases(seen))| && count == |seen|
    }

    /** Adding up the slabs of one size class. */
    method StatsOfClass(c: nat, ghost seen: set<Slab>, objects: nat, count: nat)
      returns (objects': nat, count': nat, ghost seen': set<Slab>)
      requires Valid() && c < CLASS_COUNT && seen <= slabs && Counted(seen, objects, count)
      requires forall s {:trigger s in seen} :: s in seen ==> ClassOf(s.blockSize) < c
      ensures seen <= seen' <= slabs && Counted(seen', objects', count')
      ensures forall s {:trigger s in seen'} :: s in seen' ==> ClassOf(s.blockSize) <= c
      ensures forall s {:trigger s in seen'} {:trigger s in pools[c].list} :: s in pools[c].list ==> s in seen'
    {
      hide Slab.Valid, Slab.Live, Inv, Span, SizeClass, SlabList.Valid, LargeList.Valid, ClassOf, Counted;
      assert ClassOk(c);
      OwnClass(c);
      var slab := pools[c].slabs;
      objects', count', seen' := objects, count, seen;
      pools[c].Links();
      ghost var list, k := pools[c].list, 0;
      while slab != null
        invariant 0 <= k <= |list| && slab == SlabAt(list, k)
        invariant seen <= seen' <= slabs && Counted(seen', objects', count')
        invariant forall s {:trigger s in seen'} :: s in seen' <==> s in seen || s in list[..k]
        decreases |list| - k
      {
        assert list[k] in list;
        InClass(c, slab);
        assert slab !in seen' by { pools[c].EarlierDiffer(k); }
        CountSlab(seen', objects', count', slab);
        objects' := objects' + slab.usedCount;
        count' := count' + 1;
        seen' := seen' + {slab};
        slab := slab.next;
        assert list[..k + 1] == list[..k] + [list[k]];
        k := k + 1;
      }
      assert list[..k] == list;
      forall s {:trigger s in seen'} | s in seen' ensures ClassOf(s.blockSize) <= c {
        if s in list {
          InClass(c, s);
        }
      }
    }

    lemma CountSlab(seen: set<Slab>, objects: nat, count: nat, slab: Slab)
      requires Valid() && Counted(seen, objects, count) && seen <= slabs && slab in slabs && slab !in seen
      ensures Counted(seen + {slab}, objects + slab.usedCount, count + 1)
    {
      hide Slab.Valid, Slab.Live, Inv, Span, SizeClass, SlabList.Valid, LargeList.Valid, ClassOf, LiveIn;
      assert SlabOk(slab);
      slab.CountIsBits();
      forall s | s in seen ensures s.base != slab.base {
        assert SlabOk(s);
      }
      LiveInMore(pool, Bases(seen), slab.base);
      assert Bases(seen + {slab}) == Bases(seen) + {slab.base};
    }

    /** `kvs_allocator_pool_stats`: the counters the lists add up to are the number of objects
        in use and of regions. */
    method Stats() returns (ok: bool, objects: nat, slabCount: nat, largeCount: nat, bytes: nat)
      requires Valid()
      ensures ok == initialized
      ensures ok ==> objects == |pool.live| && slabCount == |slabs| && largeCount == |larges.list|
      ensures ok ==> bytes == UNIT * |slabs| + LargeBytes(larges.list)
    {
      hide Slab.Valid, Slab.Live, Inv, Span, SizeClass, SlabList.Valid, LargeList.Valid, ClassOf, Counted;
      objects, slabCount, largeCount, bytes := 0, 0, 0, 0;
      if !initialized { return false, 0, 0, 0, 0; }
      ghost var seen: set<Slab> := {};
      NothingCounted();
      var c: nat := 0;
      while c < CLASS_COUNT
        invariant c <= CLASS_COUNT && seen <= slabs && Counted(seen, objects, slabCount)
        invariant forall s {:trigger s in seen} :: s in seen ==> ClassOf(s.blockSize) < c
        invariant forall d, s {:trigger s in pools[d].list} :: 0 <= d < c && s in pools[d].list ==> s in seen
      {
        objects, slabCount, seen := StatsOfClass(c, seen, objects, slabCount);
        c := c + 1;
      }
      forall s {:trigger s in slabs} | s in slabs ensures s in seen {
        assert SlabOk(s);
      }
      assert seen == slabs;
      bytes := UNIT * slabCount;
      AllSlabsCounted(objects, slabCount);
      var more;
      more, largeCount, bytes := StatsOfLarge(objects, bytes);
      objects := more;
      return true, objects, slabCount, largeCount, bytes;
    }

    lemma NothingCounted()
      ensures Counted({}, 0, 0)
    {
      assert LiveIn(pool, Bases({})) == {};
    }

    lemma AllSlabsCounted(objects: nat, count: nat)
      requires Counted(slabs, objects, count)
      ensures objects == |LiveIn(pool, Bases(slabs))| && count == |slabs|
    {
    }

    /** Going on with the large objects: one object each. */
    method StatsOfLarge(objects: nat, bytes: nat) returns (objects': nat, count: nat, bytes': nat)
      requires Valid() && objects == |LiveIn(pool, Bases(slabs))|
      ensures objects' == |pool.live| && count == |larges.list| && bytes' == bytes + LargeBytes(larges.list)
    {
      hide Slab.Valid, Slab.Live, Inv, Span, SizeClass, SlabList.Valid, LargeList.Valid, ClassOf, LiveIn, Bases,
           LargeBases;
      objects', count, bytes' := objects, 0, bytes;
      var large := larges.head;
      larges.Links();
      ghost var list := larges.list;
      assert Bases(slabs) + LargeBases(list[..0]) == Bases(slabs) by { NoLarge(); }
      while large != null
        invariant 0 <= count <= |list| && large == LargeAt(list, count)
        invariant objects' == |LiveIn(pool, Bases(slabs) + LargeBases(list[..count]))|
                  && bytes' == bytes + LargeBytes(list[..count])
        decreases |list| - count
      {
        CountLarge(count);
        assert LargeLinked(list, count);
        objects' := objects' + 1;
        bytes' := bytes' + large.mapping;
        large := large.next;
        assert list[..count + 1][..count] == list[..count];
        count := count + 1;
      }
      assert list[..count] == list;
      AllVisited();
      LiveInAll(pool);
    }

    static lemma NoLarge()
      ensures LargeBases([]) == {}
    {
    }

    lemma CountLarge(k: nat)
      requires Valid() && k < |larges.list|
      ensures var list := larges.list;
              |LiveIn(pool, Bases(slabs) + LargeBases(list[..k + 1]))|
                == |LiveIn(pool, Bases(slabs) + LargeBases(list[..k]))| + 1
    {
      hide Slab.Valid, Slab.Live, Inv, Span, SizeClass, SlabList.Valid, LargeList.Valid, ClassOf, LiveIn;
      var list := larges.list;
      var large := list[k];
      assert LargeOk(large);
      larges.Links();
      forall s | s in slabs ensures s.base != large.base {
        assert SlabOk(s);
      }
      assert list[..k + 1] == list[..k] + [large];
      assert LargeBases(list[..k + 1]) == LargeBases(list[..k]) + {large.base};
      assert large.base !in LargeBases(list[..k]);
      var visited := Bases(slabs) + LargeBases(list[..k]);
      LiveInMore(pool, visited, large.base);
      assert Bases(slabs) + LargeBases(list[..k + 1]) == visited + {large.base};
    }

    lemma AllVisited()
      requires Valid()
      ensures Bases(slabs) + LargeBases(larges.list) == pool.regions.Keys
    {
      hide Slab.Valid, Slab.Live, Inv, Span, SizeClass, SlabList.Valid, LargeList.Valid, ClassOf;
      var all := Bases(slabs) + LargeBases(larges.list);
      forall b ensures b in all <==> b in pool.regions {
        if b in pool.regions {
          assert b in headers && HeaderOk(b);
        }
        if b in Bases(slabs) {
          var s :| s in slabs && s.base == b;
          assert SlabOk(s);
        }
        if b in LargeBases(larges.list) {
          var l :| l in larges.list && l.base == b;
          assert LargeOk(l);
        }
      }
    }

    // --------------------------------------------------------- starting and stopping

    /** `kvs_allocator_init` with the pool backend. */
    method Init() returns (result: int)
      requires Valid()
      modifies this`initialized
      ensures Valid() && pool == old(pool) && initialized
      ensures result == if old(initialized) then -1 else 0
    {
      hide Slab.Valid, Inv, Span, SizeClass, SlabList.Valid, LargeList.Valid, ClassOf;
      if initialized { return -1; }
      initialized := true;
      forall d: nat | d < CLASS_COUNT ensures ClassOk(d) {
        assert old(ClassOk(d));
      }
      forall b | b in headers ensures HeaderOk(b) {
        assert old(HeaderOk(b));
      }
      forall b | b in pool.regions ensures Reserved(b) {
        assert old(Reserved(b));
      }
      return 0;
    }

    /** The first pass of `pool_destroy`: no slab may have a block in use. */
    method AllIdle() returns (idle: bool)
      requires Valid()
      ensures idle <==> forall s {:trigger s in slabs} :: s in slabs ==> s.usedCount == 0
    {
      hide Slab.Valid, Slab.Live, Inv, Span, SizeClass, SlabList.Valid, LargeList.Valid, ClassOf;
      var c: nat := 0;
      while c < CLASS_COUNT
        invariant c <= CLASS_COUNT
        invariant forall d, s {:trigger s in pools[d].list} :: 0 <= d < c && s in pools[d].list ==> s.usedCount == 0
      {
        assert ClassOk(c);
        var slab := pools[c].slabs;
        pools[c].Links();
        ghost var list, k := pools[c].list, 0;
        while slab != null
          invariant 0 <= k <= |list| && slab == SlabAt(list, k)
          invariant forall i :: 0 <= i < k ==> list[i].usedCount == 0
          decreases |list| - k
        {
          if slab.usedCount != 0 {
            InClass(c, slab);
            return false;
          }
          slab := slab.next;
          k := k + 1;
        }
        c := c + 1;
      }
      forall s {:trigger s in slabs} | s in slabs ensures s.usedCount == 0 {
        assert SlabOk(s);
      }
      return true;
    }

    /** Taking an idle slab of a class off the list and unmapping it, as far as the kernel lets. */
    twostate lemma SlabDropped(c: nat, new slab: Slab)
      requires c < CLASS_COUNT && old(Valid()) && old(initialized) && Shape()
      requires unchanged(`initialized) && unchanged(larges) && unchanged(old(larges.list))
      requires forall d {:trigger pools[d]} :: 0 <= d < CLASS_COUNT && d != c ==> unchanged(pools[d])
      requires forall s {:trigger s in old(slabs)} :: s in old(slabs) ==> unchanged(s)
      requires headers == old(headers) - {slab.base} && slabs == old(slabs) - {slab}
      requires pools[c].Valid() && old(pools[c].list) == [slab] + pools[c].list
      requires slab !in pools[c].list
      requires forall d {:trigger pools[d]} :: 0 <= d < CLASS_COUNT && d != c ==> slab !in old(pools[d].list)
      requires pool.regions == old(pool.regions) - {slab.base} && Inv(pool)
      requires space.mapped == old(space.mapped) - Span(slab.base, UNIT)
      ensures Valid()
    {
      hide Slab.Valid, Inv, Slab.Live, Span, SizeClass, SlabList.Valid, LargeList.Valid, ClassOf;
      assert old(ClassOk(c)) && slab in old(pools[c].list) && slab in old(slabs);
      assert old(SlabOk(slab));
      OwnClass(c);
      forall d: nat | d < CLASS_COUNT ensures ClassOk(d) {
        assert old(ClassOk(d));
        if d == c {
          forall s {:trigger s in pools[c].list} | s in pools[c].list ensures s in slabs {
            assert s in old(pools[c].list);
          }
        } else {
          assert unchanged(pools[d]);
          forall s {:trigger s in pools[d].list} | s in pools[d].list ensures s in slabs && unchanged(s) {
            assert s in old(pools[d].list) && s in old(slabs);
          }
          pools[d].Untouched();
        }
      }
      forall s | s in slabs ensures SlabOk(s) {
        assert old(SlabOk(s)) && s in old(slabs);
        assert s in old(pools[ClassOf(s.blockSize)].list);
      }
      forall l | l in larges.list ensures LargeOk(l) {
        assert old(LargeOk(l));
      }
      forall b | b in headers ensures HeaderOk(b) {
        assert old(HeaderOk(b));
      }
      forall b | b in pool.regions ensures Reserved(b) {
        assert old(Reserved(b));
        OtherSpan(old(pool), b, slab.base);
      }
    }

    lemma OnlyIn(c: nat, s: Slab)
      requires Valid() && c < CLASS_COUNT && s in pools[c].list
      ensures forall d {:trigger pools[d]} :: 0 <= d < CLASS_COUNT && d != c ==> s !in pools[d].list
    {
      hide Slab.Valid, Slab.Live, Inv, Span, SizeClass, SlabList.Valid, LargeList.Valid, ClassOf;
      assert ClassOk(c);
      InClass(c, s);
      OwnClass(c);
      forall d: nat | d < CLASS_COUNT && d != c ensures s !in pools[d].list {
        if s in pools[d].list {
          assert ClassOk(d);
          InClass(d, s);
          OwnClass(d);
        }
      }
    }

    lemma IdleSlab(s: Slab)
      requires Valid() && s in slabs && s.usedCount == 0
      ensures Inv(pool) && s.base in pool.regions && pool.regions[s.base] == SlabRegion(s.blockSize, {})
      ensures s.base in headers && headers[s.base] == SlabHeader(s)
    {
      hide Slab.Valid, Slab.Live, Inv, Span, SizeClass, SlabList.Valid, LargeList.Valid, ClassOf;
      assert SlabOk(s);
      s.CountIsBits();
    }

    lemma NothingLive()
      requires Valid() && larges.head == null && forall s {:trigger s in slabs} :: s in slabs ==> s.usedCount == 0
      ensures pool.live == map[]
    {
      hide Slab.Valid, Slab.Live, Span, SizeClass, SlabList.Valid, LargeList.Valid, ClassOf;
      larges.Links();
      forall s {:trigger s in slabs} | s in slabs
        ensures s.base in pool.regions && pool.regions[s.base] == SlabRegion(s.blockSize, {}) {
        IdleSlab(s);
      }
      forall p: nat ensures p !in pool.live {
        assert p in pool.live ==> Owned(pool.regions, p);
        assert Base(p) in headers ==>
                 HeaderOk(Base(p)) && headers[Base(p)].SlabHeader? && headers[Base(p)].slab in slabs;
        if Base(p) in headers {
          assert pool.regions[Base(p)] == SlabRegion(headers[Base(p)].slab.blockSize, {});
        }
      }
    }

    /** A large object or a block in use is a pointer in use. */
    lemma LargeLive()
      requires Valid() && larges.head != null
      ensures pool.live != map[]
    {
      hide Slab.Valid, Slab.Live, Span, SizeClass, SlabList.Valid, LargeList.Valid, ClassOf, Inv;
      larges.Links();
      var l := larges.list[0];
      assert l in larges.list && LargeOk(l);
      DropLargeKeeps(pool, l.base);
    }

    lemma SlabLive(s: Slab)
      requires Valid() && s in slabs && s.usedCount != 0
      ensures pool.live != map[]
    {
      hide Slab.Valid, Slab.Live, Span, SizeClass, SlabList.Valid, LargeList.Valid, ClassOf, Inv;
      assert SlabOk(s);
      s.CountIsBits();
      LiveInMore(pool, {}, s.base);
      assert {} + {s.base} == {s.base};
      assert |LiveIn(pool, {s.base})| > 0;
    }

    lemma SlabHome(s: Slab)
      requires Valid() && s in slabs
      ensures Shape() && ClassOf(s.blockSize) < CLASS_COUNT && s in pools[ClassOf(s.blockSize)].list
    {
      hide Slab.Valid, Slab.Live, Span, SizeClass, SlabList.Valid, LargeList.Valid, ClassOf, Inv;
      assert SlabOk(s);
    }

    lemma AllGone()
      requires Valid() && larges.head == null && forall d {:trigger pools[d]} :: 0 <= d < CLASS_COUNT ==>
                 pools[d].slabs == null
      ensures pool.regions == map[] && headers == map[] && slabs == {} && larges.list == []
    {
      hide Slab.Valid, Slab.Live, Span, SizeClass, SlabList.Valid, LargeList.Valid, ClassOf, Inv;
      larges.Links();
      forall c: nat | c < CLASS_COUNT ensures pools[c].list == [] {
        assert ClassOk(c) && pools[c].slabs == null;
        pools[c].Links();
      }
      if slabs != {} {
        var s :| s in slabs;
        SlabHome(s);
      }
      forall b: nat ensures b !in headers {
        assert b in headers ==> HeaderOk(b);
      }
    }

    lemma FirstOfClass(c: nat)
      requires Valid() && c < CLASS_COUNT && Shape() && pools[c].slabs != null
      ensures pools[c].Valid() && pools[c].list != [] && pools[c].slabs == pools[c].list[0]
      ensures pools[c].slabs in slabs && pools[c].slabs !in pools[c].list[1..]
      ensures forall d {:trigger pools[d]} :: 0 <= d < CLASS_COUNT && d != c ==>
                pools[c].slabs !in pools[d].list && pools[d] != pools[c]
    {
      hide Slab.Valid, Slab.Live, Inv, Span, SizeClass, LargeList.Valid, ClassOf;
      assert ClassOk(c);
      OwnClass(c);
      var list := pools[c].list;
      var slab := pools[c].slabs;
      assert slab == list[0] && slab in list;
      OnlyIn(c, slab);
      forall d: nat | d < CLASS_COUNT && d != c ensures pools[d] != pools[c] {
        OwnClass(d);
        assert pools[d].blockSize == BLOCK_SIZES[d];
      }
    }

    method TakeOff(c: nat, slab: Slab)
      requires c < |pools| && pools[c].Valid() && pools[c].list != [] && slab == pools[c].list[0]
               && pools[c].slabs == slab
      modifies this`pool, this`headers, this`slabs, pools[c]
      ensures pools[c].Valid() && old(pools[c].list) == [slab] + pools[c].list
      ensures headers == old(headers) - {slab.base} && slabs == old(slabs) - {slab}
              && pool == DropSlab(old(pool), slab.base)
    {
      hide *;
      var first := pools[c].Pop();
      headers := headers - {slab.base};
      slabs := slabs - {slab};
      pool := DropSlab(pool, slab.base);
    }

    /** Taking the first slab of a class away. */
    method DropFirst(c: nat) returns (ok: bool)
      requires Valid() && initialized && c < CLASS_COUNT && Shape() && pools[c].slabs != null
      requires forall s {:trigger s in slabs} :: s in slabs ==> s.usedCount == 0
      modifies this`pool, this`headers, this`slabs, pools[c], space
      ensures Valid() && pool.live == old(pool.live)
      ensures if ok then slabs < old(slabs) else slabs == old(slabs) && pool == old(pool) && unchanged(pools[c])
      ensures space.refusals == old(space.refusals) + if ok then 0 else 1
    {
      hide Slab.Valid, Slab.Live, Inv, Span, SizeClass, SlabList.Valid, LargeList.Valid, ClassOf, Valid;
      var slab := pools[c].slabs;
      FirstOfClass(c);
      IdleSlab(slab);
      ok := space.Unmap(slab.base, UNIT);
      if ok {
        DropSlabKeeps(pool, slab.base);
        TakeOff(c, slab);
        SlabDropped(c, slab);
      } else {
        MoreMapped();
      }
    }

    method Stop()
      requires Valid() && slabs == {} && larges.list == [] && headers == map[] && pool.regions == map[]
      modifies this`initialized
      ensures Valid() && !initialized
    {
      hide Slab.Valid, Slab.Live, Inv, Span, SizeClass, SlabList.Valid, LargeList.Valid, ClassOf;
      initialized := false;
      forall d: nat | d < CLASS_COUNT ensures ClassOk(d) {
        assert old(ClassOk(d));
      }
    }

    /** `kvs_allocator_destroy`: refuses while an object is in use, and then gives every region
        back; when the kernel refuses one, the rest of the pool stays usable. */
    method Destroy() returns (result: int)
      requires Valid()
      modifies this, pools, space
      ensures Valid() && pool.live == old(pool.live) && (result == 0 || result == -1)
      ensures !old(initialized) ==> result == 0 && !initialized
      ensures old(initialized) && old(pool.live) != map[] ==> result == -1 && pool == old(pool)
      ensures old(initialized) && result == 0 ==> !initialized && pool == EMPTY
      ensures result == -1 ==> initialized
      ensures result == -1 <==>
                old(initialized) && (old(pool.live) != map[] || space.refusals > old(space.refusals))
    {
      hide Slab.Valid, Slab.Live, Inv, Span, SizeClass, SlabList.Valid, LargeList.Valid, ClassOf;
      if !initialized { return 0; }
      if larges.head != null {
        LargeLive();
        return -1;
      }
      var idle := AllIdle();
      if !idle {
        ghost var s :| s in slabs && s.usedCount != 0;
        SlabLive(s);
        return -1;
      }
      NothingLive();
      var c: nat := 0;
      while c < CLASS_COUNT
        invariant c <= CLASS_COUNT && Valid() && initialized && pool.live == map[] && slabs <= old(slabs)
        invariant space.refusals == old(space.refusals)
        invariant forall s {:trigger s in slabs} :: s in slabs ==> s.usedCount == 0
        invariant forall d {:trigger pools[d]} :: 0 <= d < c ==> pools[d].slabs == null
        invariant unchanged(larges)
      {
        while pools[c].slabs != null
          invariant Valid() && initialized && pool.live == map[] && slabs <= old(slabs)
          invariant space.refusals == old(space.refusals)
          invariant forall s {:trigger s in slabs} :: s in slabs ==> s.usedCount == 0
          invariant forall d {:trigger pools[d]} :: 0 <= d < c ==> pools[d].slabs == null
          invariant unchanged(larges)
          decreases slabs
        {
          var ok := DropFirst(c);
          if !ok { return -1; }
        }
        c := c + 1;
      }
      AllGone();
      Stop();
      return 0;
    }
  }
}
