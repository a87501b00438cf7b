/** Regions of memory aligned to 64 KiB (region_memory_alloc in src/memory/kvs_allocator.c),
    the slab list of one size class, and the doubly linked list of large objects. */
module Regions {
  import opened PoolLayout
  import opened Slabs
  import opened Bytes

  predicate Within(address: nat, start: nat, size: nat) {
    start <= address < start + size
  }

  function Span(start: nat, size: nat): (s: set<nat>)
    ensures forall a: nat :: a in s <==> Within(a, start, size)
  {
    set a: nat {:trigger Within(a, start, size)} | start <= a < start + size && Within(a, start, size)
  }

  lemma SpansApart(a: nat, n: nat, b: nat, m: nat)
    requires Span(a, n) !! Span(b, m) && n > 0 && m > 0
    ensures a + n <= b || b + m <= a
  {
    hide Span;
    var top := if a < b then b else a;
    assert !(top in Span(a, n) && top in Span(b, m));
  }

  lemma ApartSpans(a: nat, n: nat, b: nat, m: nat)
    requires a + n <= b || b + m <= a
    ensures Span(a, n) !! Span(b, m)
  {
  }

  /** The addresses the kernel has mapped. Mapping returns pages nothing else uses, or fails;
      unmapping may fail too. `refusals` counts both kinds of failure. */
  class AddressSpace {
    const pageSize: int
    var mapped: set<nat>
    ghost var refusals: nat

    constructor (pageSize: int)
    {
      this.pageSize := pageSize;
      mapped, refusals := {}, 0;
    }

    method Map(size: nat) returns (raw: nat)
      requires 0 < size && 0 < pageSize
      modifies this
      ensures refusals == old(refusals) + if raw == 0 then 1 else 0
      ensures raw == 0 ==> mapped == old(mapped)
      ensures raw != 0 ==>
                && raw % pageSize == 0 && raw + size <= SIZE_MAX
                && Span(raw, size) !! old(mapped) && mapped == old(mapped) + Span(raw, size)
    {
      raw := *;
      if raw == 0 || raw % pageSize != 0 || raw + size > SIZE_MAX || !(Span(raw, size) !! mapped) {
        refusals := refusals + 1;
        return 0;
      }
      mapped := mapped + Span(raw, size);
    }

    method Unmap(start: nat, size: nat) returns (ok: bool)
      modifies this
      ensures mapped == if ok then old(mapped) - Span(start, size) else old(mapped)
      ensures refusals == old(refusals) + if ok then 0 else 1
    {
      ok := *;
      if ok {
        mapped := mapped - Span(start, size);
      } else {
        refusals := refusals + 1;
      }
    }
  }

  /** Rounding up to the next multiple of the unit: `(raw + UNIT - 1) & ~(UNIT - 1)`. */
  function AlignUp(raw: nat): (aligned: nat)
    ensures aligned % UNIT == 0 && raw <= aligned < raw + UNIT
  {
    Base(raw + UNIT - 1)
  }

  /** The requests a region can be found for: whole pages, pages that divide the unit, and room
      to align. */
  predicate Mappable(pageSize: int, size: nat) {
    pageSize > 0 && UNIT % pageSize == 0 && size > 0 && size % pageSize == 0 && size <= SIZE_MAX - UNIT
  }

  /** `region_memory_alloc`: an aligned region nobody else has, and nothing more stays mapped. It
      is refused exactly for a size that cannot be mapped or when the kernel refuses a call. */
  method RegionMemoryAlloc(space: AddressSpace, size: nat) returns (region: nat)
    modifies space
    ensures old(space.mapped) <= space.mapped
    ensures region != 0 ==>
              && region % UNIT == 0 && Span(region, size) !! old(space.mapped)
              && space.mapped == old(space.mapped) + Span(region, size)
    ensures region != 0 ==> 0 < size && region + size <= SIZE_MAX
    ensures old(space.refusals) <= space.refusals
    ensures region == 0 <==> !Mappable(space.pageSize, size) || space.refusals > old(space.refusals)
  {
    if space.pageSize <= 0 || UNIT % space.pageSize != 0 || size == 0 || size % space.pageSize != 0 { return 0; }
    if size > SIZE_MAX - UNIT { return 0; }
    ghost var before := space.mapped;
    var reserved := size + UNIT;
    var raw := space.Map(reserved);
    if raw == 0 { return 0; }
    var aligned := AlignUp(raw);
    var prefix := aligned - raw;
    var suffix := reserved - prefix - size;
    if prefix != 0 {
      var ok := space.Unmap(raw, prefix);
      if !ok {
        ok := space.Unmap(raw, reserved);
        return 0;
      }
    }
    assert space.mapped == before + Span(aligned, reserved - prefix);
    if suffix != 0 {
      var ok := space.Unmap(aligned + size, suffix);
      if !ok {
        ok := space.Unmap(aligned, reserved - prefix);
        return 0;
      }
    }
    assert space.mapped == before + Span(aligned, size);
    return aligned;
  }

  // -------------------------------------------------- the slabs of one size class

  function SlabAt(list: seq<Slab>, k: nat): Slab? {
    if k < |list| then list[k] else null
  }

  /** The links of a list: the head, then each `next`. */
  ghost predicate SlabChain(head: Slab?, list: seq<Slab>)
    reads list
  {
    && head == SlabAt(list, 0)
    && forall k {:trigger list[k]} :: 0 <= k < |list| ==> list[k].next == SlabAt(list, k + 1)
  }

  ghost predicate DistinctSlabs(list: seq<Slab>) {
    forall i, j :: 0 <= i < j < |list| ==> list[i].base != list[j].base
  }

  /** `kvs_size_class_t`. */
  class SlabList {
    const blockSize: nat
    var slabs: Slab?
    ghost var list: seq<Slab>

    ghost predicate Valid()
      reads this, list
    {
      && SizeClass(blockSize)
      && SlabChain(slabs, list) && DistinctSlabs(list)
      && (forall s {:trigger s.Valid()} :: s in list ==> s.Valid() && s.blockSize == blockSize)
    }

    constructor (blockSize: nat)
      requires SizeClass(blockSize)
      ensures Valid() && list == [] && this.blockSize == blockSize
    {
      this.blockSize := blockSize;
      slabs := null;
      list := [];
    }

    /** Changing one slab's contents leaves the list in order. */
    twostate lemma StillValid(slab: Slab)
      requires old(Valid()) && unchanged(this)
      requires slab.Valid() && slab.next == old(slab.next)
      requires forall s {:trigger s in list} :: s in list && s != slab ==> unchanged(s)
      ensures Valid()
    {
      hide Slab.Valid, SizeClass, DistinctSlabs;
      forall s | s in list ensures s.Valid() && s.blockSize == blockSize {
        assert old(s.Valid());
      }
      forall k | 0 <= k < |list| ensures list[k].next == SlabAt(list, k + 1) {
        assert list[k] in list && old(list[k].next) == SlabAt(list, k + 1);
      }
    }

    twostate lemma Untouched()
      requires old(Valid()) && unchanged(this)
      requires forall s {:trigger s in list} :: s in list ==> unchanged(s)
      ensures Valid()
    {
      hide Slab.Valid, SizeClass, DistinctSlabs;
      forall s | s in list ensures s.Valid() && s.blockSize == blockSize {
        assert old(s.Valid());
      }
      forall k | 0 <= k < |list| ensures list[k].next == SlabAt(list, k + 1) {
        assert list[k] in list && old(list[k].next) == SlabAt(list, k + 1);
      }
    }

    lemma Links()
      requires Valid()
      ensures SlabChain(slabs, list)
    {
      hide Slab.Valid;
    }

    lemma EarlierDiffer(k: nat)
      requires Valid() && k < |list|
      ensures list[k] !in list[..k]
    {
      hide Slab.Valid;
    }

    /** The slab has a free block, and every slab before it on the list is full. */
    ghost predicate FirstWithRoom(slab: Slab)
      reads this, list
    {
      exists k {:trigger list[k]} :: 0 <= k < |list| && list[k] == slab && slab.freeList != 0 && forall i ::
        0 <= i < k ==> list[i].freeList == 0
    }

    /** The first slab with a free block. */
    method FindFree() returns (slab: Slab?)
      requires Valid()
      ensures slab != null ==> slab in list && slab.freeList != 0 && FirstWithRoom(slab)
      ensures slab == null ==> forall s {:trigger s in list} :: s in list ==> s.freeList == 0
    {
      slab := slabs;
      ghost var k := 0;
      while slab != null && slab.freeList == 0
        invariant 0 <= k <= |list| && slab == SlabAt(list, k)
        invariant forall i :: 0 <= i < k ==> list[i].freeList == 0
        decreases |list| - k
      {
        slab := slab.next;
        k := k + 1;
      }
    }

    /** Taking the first slab off the list. */
    method Pop() returns (slab: Slab)
      requires Valid() && slabs != null
      modifies this
      ensures Valid() && old(list) == [slab] + list && old(slabs) == slab
    {
      hide Slab.Valid, SizeClass;
      slab := slabs;
      assert forall k {:trigger list[k]} :: 0 <= k < |list| ==> list[k].next == SlabAt(list, k + 1);
      ghost var before := list;
      slabs := slab.next;
      list := list[1..];
      forall k | 0 <= k < |list| ensures list[k].next == SlabAt(list, k + 1) {
        assert list[k] == before[k + 1];
      }
      forall s | s in list ensures s.Valid() && s.blockSize == blockSize {
        assert s in before;
      }
    }

    method Push(slab: Slab)
      requires Valid() && slab.Valid() && slab.blockSize == blockSize
      requires forall s {:trigger s in list} :: s in list ==> s.base != slab.base
      modifies this, slab`next
      ensures Valid() && list == [slab] + old(list) && slab.Valid() && slab.View() == old(slab.View())
    {
      hide Slab.Valid, Slab.View, SizeClass, DistinctSlabs;
      ghost var before := list;
      slab.SetNext(slabs);
      slabs := slab;
      list := [slab] + list;
      forall k | 0 <= k < |list| ensures list[k].next == SlabAt(list, k + 1) {
        if k > 0 {
          assert list[k] == before[k - 1] && before[k - 1] in before;
          assert k + 1 < |list| ==> list[k + 1] == before[k];
        }
      }
      forall s | s in list ensures s.Valid() && s.blockSize == blockSize {
        assert s == slab || (s in before && old(s.Valid()));
      }
      assert DistinctSlabs(list) by { MoreDistinct(before, slab); }
    }
  }

  lemma MoreDistinct(list: seq<Slab>, slab: Slab)
    requires DistinctSlabs(list) && forall s {:trigger s in list} :: s in list ==> s.base != slab.base
    ensures DistinctSlabs([slab] + list)
  {
    var more := [slab] + list;
    forall i, j | 0 <= i < j < |more| ensures more[i].base != more[j].base {
      assert more[j] == list[j - 1] && list[j - 1] in list && (i > 0 ==> more[i] == list[i - 1]);
    }
  }

  // ---------------------------------------------------------- the large objects

  /** `kvs_large_t`. */
  class Large {
    const base: nat
    const mapping: nat
    var prev: Large?
    var next: Large?

    constructor (base: nat, mapping: nat)
      ensures this.base == base && this.mapping == mapping
    {
      this.base := base;
      this.mapping := mapping;
      prev, next := null, null;
    }
  }

  function LargeAt(list: seq<Large>, k: int): Large? {
    if 0 <= k < |list| then list[k] else null
  }

  ghost predicate LargeLinked(list: seq<Large>, k: int)
    requires 0 <= k < |list|
    reads list
  {
    list[k].prev == LargeAt(list, k - 1) && list[k].next == LargeAt(list, k + 1)
  }

  ghost predicate DistinctLarge(list: seq<Large>) {
    forall i, j :: 0 <= i < j < |list| ==> list[i].base != list[j].base
  }

  lemma DistinctObjects(list: seq<Large>, i: int, j: int)
    requires DistinctLarge(list) && 0 <= i < |list| && 0 <= j < |list| && i != j
    ensures list[i] != list[j]
  {
    var a, b := if i < j then i else j, if i < j then j else i;
    assert list[a].base != list[b].base;
  }

  /** `large_regions`. */
  class LargeList {
    var head: Large?
    ghost var list: seq<Large>

    ghost predicate Valid()
      reads this, list
    {
      && head == LargeAt(list, 0) && DistinctLarge(list)
      && (forall k {:trigger LargeLinked(list, k)} :: 0 <= k < |list| ==> LargeLinked(list, k))
    }

    constructor ()
      ensures Valid() && list == []
    {
      head := null;
      list := [];
    }

    lemma Links()
      requires Valid()
      ensures head == LargeAt(list, 0) && DistinctLarge(list)
      ensures forall k {:trigger LargeLinked(list, k)} :: 0 <= k < |list| ==> LargeLinked(list, k)
    {
    }

    method Insert(large: Large)
      requires Valid() && forall l {:trigger l in list} :: l in list ==> l.base != large.base
      modifies this, list, large
      ensures Valid() && list == [large] + old(list)
    {
      hide DistinctLarge;
      ghost var before := list;
      assert forall k {:trigger LargeLinked(before, k)} :: 0 <= k < |before| ==> LargeLinked(before, k);
      assert DistinctLarge([large] + before) by { MoreDistinct(before, large); }
      assert before != [] ==> before[0] in before;
      large.prev := null;
      large.next := head;
      if head != null {
        head.prev := large;
      }
      head := large;
      list := [large] + list;
      forall k | 0 <= k < |list| ensures LargeLinked(list, k) {
        if k > 0 {
          assert list[k] == before[k - 1] && before[k - 1] in before && old(LargeLinked(before, k - 1));
          assert k > 1 ==> list[k - 1] == before[k - 2];
          assert k + 1 < |list| ==> list[k + 1] == before[k];
          if k > 1 {
            DistinctObjects(before, 0, k - 1);
          }
        }
      }
    }

    static lemma MoreDistinct(list: seq<Large>, large: Large)
      requires DistinctLarge(list) && forall l {:trigger l in list} :: l in list ==> l.base != large.base
      ensures DistinctLarge([large] + list)
    {
      var more := [large] + list;
      forall i, j | 0 <= i < j < |more| ensures more[i].base != more[j].base {
        assert more[j] == list[j - 1] && list[j - 1] in list && (i > 0 ==> more[i] == list[i - 1]);
      }
    }

    /** `pool_free_large`: unlinking, and when the region then cannot be unmapped, linking it
        back where it was. */
    method Remove(large: Large, space: AddressSpace) returns (result: int)
      requires Valid() && large in list
      modifies this, list, space
      ensures Valid() && (result == 0 || result == -1)
      ensures result == 0 ==>
                Without(old(list), large, list) && space.mapped == old(space.mapped) - Span(large.base, large.mapping)
      ensures result == -1 ==> list == old(list) && space.mapped == old(space.mapped)
      ensures space.refusals == old(space.refusals) + if result == 0 then 0 else 1
    {
      hide DistinctLarge, Span;
      ghost var k :| 0 <= k < |list| && list[k] == large;
      Unlink(large, k);
      var ok := space.Unmap(large.base, large.mapping);
      if ok {
        LessDistinct(list, k);
        list := list[..k] + list[k + 1..];
        return 0;
      }
      Relink(large, k);
      return -1;
    }

    static lemma LessDistinct(list: seq<Large>, k: int)
      requires DistinctLarge(list) && 0 <= k < |list|
      ensures DistinctLarge(list[..k] + list[k + 1..])
    {
    }

    /** The list as `large` alone sees it, while it is unlinked. */
    ghost predicate Unlinked(large: Large, k: int)
      reads this, list
    {
      && 0 <= k < |list| && list[k] == large && DistinctLarge(list) && LargeLinked(list, k)
      && var rest := list[..k] + list[k + 1..];
         head == LargeAt(rest, 0) && forall i {:trigger LargeLinked(rest, i)} :: 0 <= i < |rest| ==>
           LargeLinked(rest, i)
    }

    method Unlink(large: Large, ghost k: int)
      requires Valid() && 0 <= k < |list| && list[k] == large
      modifies this`head, list
      ensures Unlinked(large, k) && list == old(list)
    {
      hide DistinctLarge;
      assert LargeLinked(list, k);
      var prev, next := large.prev, large.next;
      NeighboursDiffer(k);
      if prev != null {
        prev.next := next;
      } else {
        head := next;
      }
      if next != null {
        next.prev := prev;
      }
      ghost var rest := list[..k] + list[k + 1..];
      forall i | 0 <= i < |rest| ensures LargeLinked(rest, i) {
        ghost var j := if i < k then i else i + 1;
        assert rest[i] == list[j] && old(LargeLinked(list, j));
        assert i > 0 ==> rest[i - 1] == list[if i - 1 < k then i - 1 else i];
        assert i + 1 < |rest| ==> rest[i + 1] == list[if i + 1 < k then i + 1 else i + 2];
        AllDiffer(j);
      }
    }

    method Relink(large: Large, ghost k: int)
      requires Unlinked(large, k)
      modifies this`head, list
      ensures Valid() && list == old(list)
    {
      hide DistinctLarge;
      var prev, next := large.prev, large.next;
      NeighboursDiffer(k);
      if prev != null {
        prev.next := large;
      } else {
        head := large;
      }
      if next != null {
        next.prev := large;
      }
      ghost var rest := list[..k] + list[k + 1..];
      forall j | 0 <= j < |list| ensures LargeLinked(list, j) {
        if j != k {
          ghost var i := if j < k then j else j - 1;
          assert rest[i] == list[j] && old(LargeLinked(rest, i));
          assert i > 0 ==> rest[i - 1] == list[if i - 1 < k then i - 1 else i];
          assert i + 1 < |rest| ==> rest[i + 1] == list[if i + 1 < k then i + 1 else i + 2];
        }
        AllDiffer(j);
      }
    }

    lemma AllDiffer(j: int)
      requires DistinctLarge(list) && 0 <= j < |list|
      ensures forall i {:trigger list[i]} :: 0 <= i < |list| && i != j ==> list[i] != list[j]
    {
      hide DistinctLarge;
      forall i | 0 <= i < |list| && i != j ensures list[i] != list[j] {
        DistinctObjects(list, i, j);
      }
    }

    lemma NeighboursDiffer(k: int)
      requires DistinctLarge(list) && 0 <= k < |list|
      ensures k > 0 ==> list[k - 1] != list[k]
      ensures k + 1 < |list| ==> list[k + 1] != list[k]
      ensures 0 < k < |list| - 1 ==> list[k - 1] != list[k + 1]
    {
      hide DistinctLarge;
      AllDiffer(k);
      if k > 0 {
        AllDiffer(k - 1);
      }
    }
  }

  /** `after` is `before` with one element gone. */
  ghost predicate Without(before: seq<Large>, large: Large, after: seq<Large>) {
    exists k :: 0 <= k < |before| && before[k] == large && after == before[..k] + before[k + 1..]
  }
}
