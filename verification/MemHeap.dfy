// rt-thread/src/memheap.c: one heap over a pool of memory. The methods rewrite headers,
// rings and counters the way the code does, and each is proved to end in the partition
// that the corresponding operation of HeapSpec has on values. The payload bytes are
// those of the shared memory, so that what a call leaves unchanged is stated byte by byte.
module MemHeap {
  import opened Seqs
  import opened Words
  import opened HeapSpec
  import opened HeapLaws
  import opened Memory
  import opened MemHeapLinks
  import Ring

  class MemHeap {
    const memory: Ram
    const id: int           // address of the control block, stored in every header's pool_ptr
    const start: int        // start_addr
    const poolSize: nat
    const sentinel: int     // address of free_header, to which free_list points
    var available: int
    var maxUsed: int
    ghost var v: View

    /** rt_memheap_init */
    constructor (memory: Ram, id: int, start: int, size: nat, sentinel: int)
      requires NULL < start && start + size <= |memory.m.ram| && start + size <= SPAN
      requires AlignDown(size) >= 2 * HEADER && Apart(sentinel, start, AlignDown(size))
      modifies memory
      ensures this.memory == memory && this.id == id && this.start == start && this.sentinel == sentinel
      ensures Valid() && poolSize == AlignDown(size) && v == Initial(start, poolSize)
      ensures available == poolSize - 2 * HEADER && maxUsed == 2 * HEADER
    {
      this.memory, this.id, this.start, this.sentinel := memory, id, start, sentinel;
      this.poolSize := AlignDown(size);
      this.available := InitialFree(AlignDown(size));
      this.maxUsed := AlignDown(size) - InitialFree(AlignDown(size));
      this.v := Initial(start, AlignDown(size));
      new;
      Format();
      InitialValid(start, poolSize);
    }

    method Format()
      requires NULL < start && start + poolSize <= |memory.m.ram| && start + poolSize <= SPAN
      requires poolSize >= 2 * HEADER && Apart(sentinel, start, poolSize)
      modifies memory
      ensures |memory.m.ram| == old(|memory.m.ram|)
      ensures Holds(memory.m, id, sentinel, Initial(start, poolSize))
    {
      memory.SetNextFree(sentinel, sentinel);
      memory.SetPrevFree(sentinel, sentinel);
      var tail: int := TailerAt(start, poolSize);
      assert tail == start + poolSize - HEADER;
      hide WithTailer, TailerAt, Initial, Holds;
      FormatFirst(tail);
      ghost var f := memory.m;
      var junk := FormatTail(tail);
      TailerFields(f, id, start, tail, junk);
      TailerKeeps(f, id, start, tail, junk, start);
      TailerKeeps(f, id, start, tail, junk, sentinel);
      InitialHolds(memory.m, id, sentinel, start, poolSize);
    }

    /** The first big block, put on the free list. */
    method FormatFirst(tail: int)
      requires NULL < start && tail + HEADER <= |memory.m.ram| && start + HEADER <= tail
      requires Apart(sentinel, start, tail + HEADER - start)
      requires sentinel in memory.m.nextFree && memory.m.nextFree[sentinel] == sentinel
      requires sentinel in memory.m.prevFree && memory.m.prevFree[sentinel] == sentinel
      modifies memory
      ensures |memory.m.ram| == old(|memory.m.ram|)
      ensures var m := memory.m;
        && start in m.next && m.next[start] == tail && start in m.prev && m.prev[start] == tail
        && start in m.used && !m.used[start] && start in m.pool && m.pool[start] == id
        && start in m.nextFree && m.nextFree[start] == sentinel && sentinel in m.nextFree && m.nextFree[sentinel] == start
        && start in m.prevFree && m.prevFree[start] == sentinel && sentinel in m.prevFree && m.prevFree[sentinel] == start
    {
      var junk := memory.NewMagic(start);
      memory.SetPool(start, id);
      memory.SetNext(start, tail);
      memory.SetPrev(start, tail);
      Push(start);
    }

    /** The used tailer of length 0, which keeps blocks from merging across the end. */
    method FormatTail(tail: int) returns (junk: seq<byte>)
      requires NULL < start && tail + HEADER <= |memory.m.ram| && start + HEADER <= tail
      modifies memory
      ensures |junk| == HEADER && memory.m == WithTailer(old(memory.m), id, start, tail, junk)
    {
      junk := memory.NewMagic(tail);
      memory.SetUsed(tail, true);
      memory.SetPool(tail, id);
      memory.SetNext(tail, start);
      memory.SetPrev(tail, start);
      memory.SetNextFree(tail, NULL);
      memory.SetPrevFree(tail, NULL);
    }

    ghost function End(): int { start + poolSize - HEADER }

    ghost predicate Valid()
      reads this, memory
    {
      && Placed(memory.m, start, End(), sentinel)
      && HeapSpec.Valid(v, start, End())
      && Holds(memory.m, id, sentinel, v)
      && available == FreeBytes(v.blocks)
      && poolSize - available <= maxUsed
      && start + poolSize <= SPAN
    }

    /** MEMITEM_SIZE */
    function ItemSize(h: int): int
      requires h in memory.m.next
      reads memory
    {
      memory.m.next[h] - h - HEADER
    }

    method Divide(h: int, n: int) returns (ghost junk: seq<byte>)
      requires 0 <= n && n + HEADER <= |memory.m.ram| && h in memory.m.next && Apart(h, n, HEADER)
      modifies memory
      ensures |junk| == HEADER && memory.m == Divided(old(memory.m), id, h, n, junk)
    {
      junk := memory.NewMagic(n);
      memory.SetPool(n, id);
      var after := memory.m.next[h];
      memory.SetPrev(n, h);
      memory.SetNext(n, after);
      memory.SetPrev(after, n);
      memory.SetNext(h, n);
    }

    /** Takes f off the free list. */
    method Detach(f: int)
      requires f in memory.m.nextFree && f in memory.m.prevFree
      modifies memory
      ensures memory.m == FreeUnlinked(old(memory.m), f)
    {
      var before, after := memory.m.prevFree[f], memory.m.nextFree[f];
      memory.SetPrevFree(after, before);
      memory.SetNextFree(before, after);
    }

    method Take(f: int)
      requires f in memory.m.nextFree && f in memory.m.prevFree
      modifies memory
      ensures memory.m == Taken(old(memory.m), f)
    {
      Detach(f);
      memory.SetNextFree(f, NULL);
      memory.SetPrevFree(f, NULL);
    }

    /** Puts f at the head of the free list. */
    method Push(f: int)
      requires sentinel in memory.m.nextFree
      modifies memory
      ensures memory.m == FreePushed(old(memory.m), sentinel, f)
    {
      var first := memory.m.nextFree[sentinel];
      memory.SetNextFree(f, first);
      memory.SetPrevFree(f, sentinel);
      memory.SetPrevFree(first, f);
      memory.SetNextFree(sentinel, f);
    }

    /** Takes f out of the block ring. */
    method Unlink(f: int)
      requires f in memory.m.next && f in memory.m.prev
      modifies memory
      ensures memory.m == Unlinked(old(memory.m), f)
    {
      var before, after := memory.m.prev[f], memory.m.next[f];
      memory.SetPrev(after, before);
      memory.SetNext(before, after);
    }

    /** The search of rt_memheap_alloc: the first listed block of sufficient size, or the sentinel. */
    method Search(want: nat) returns (header: int, freeSize: int)
      requires Valid() && want > 0
      ensures FirstFit(v, want).Some? ==> header == v.free[FirstFit(v, want).value] && freeSize == SizeAt(v, header) && freeSize >= want
      ensures FirstFit(v, want).None? ==> freeSize < want
    {
      ReadsFree(memory.m, sentinel, v.free, 0);
      header := memory.m.nextFree[sentinel];
      freeSize := 0;
      ghost var k: nat := 0;
      while header != sentinel && freeSize < want
        invariant k <= |v.free|
        invariant header == if k < |v.free| then v.free[k] else sentinel
        invariant FirstFit(v, want) == FirstFit(v, want, k)
        invariant freeSize >= want ==> k < |v.free| && freeSize == SizeAt(v, v.free[k])
        decreases |v.free| - k, want - freeSize
      {
        FirstFitStep(v, want, k);
        SearchStep(memory.m, id, sentinel, v, start, End(), k);
        freeSize := ItemSize(header);
        if freeSize < want {
          header := memory.m.nextFree[header];
          k := k + 1;
        }
      }
      if k < |v.free| {
        FirstFitStep(v, want, k);
        SearchStep(memory.m, id, sentinel, v, start, End(), k);
      }
    }

    /** Counts n more bytes as taken. */
    method Account(n: int)
      modifies this`available, this`maxUsed
      ensures available == old(available) - n
      ensures maxUsed == Max(old(maxUsed), poolSize - available)
    {
      available := available - n;
      if poolSize - available > maxUsed {
        maxUsed := poolSize - available;
      }
    }

    /** rt_memheap_alloc */
    method Alloc(size: nat) returns (ptr: int)
      requires Valid()
      modifies this, memory
      ensures Valid()
      ensures var want, was := Rounded(size), old(v);
        && v == HeapSpec.Alloc(was, want)
        && (ptr == NULL <==> Refuses(was, want))
        && (ptr == NULL ==> memory.m == old(memory.m))
        && (ptr != NULL ==> ptr == was.blocks[Chosen(was, want)].addr + HEADER)
      ensures maxUsed == Max(old(maxUsed), poolSize - available)
      ensures KeepsPayload(old(memory.m).ram, memory.m.ram, old(v.blocks))
      ensures SameOutside(old(memory.m), memory.m, start, End() + HEADER, sentinel)
    {
      hide Ring.IsRing, Tagged, HeapSpec.Valid, AllocAt, FreeBytes, HasBlock, Find, SizeAt, Listed, Named;
      var want := Rounded(size);
      ValidNamed(v, start, End());
      ptr := NULL;
      if want < available {
        var header, freeSize := Search(want);
        if freeSize >= want {
          ghost var i := Chosen(v, want);
          ChosenFits(v, start, End(), want);
          OwnBlock(v, start, End(), i);
          AllocFreeBytes(v, i, want);
          AllocKeepsValid(v, start, End(), i, want);
          if freeSize >= want + HEADER + MINIALLOC {
            AllocSplit(header, want, i);
            Account(want + HEADER);
          } else {
            AllocWhole(header, want, i);
            Account(freeSize);
          }
          v := AllocAt(v, i, want);
          ptr := header + HEADER;
        }
      }
    }

    method AllocWhole(header: int, want: nat, ghost i: nat)
      requires Valid() && i < |v.blocks| - 1 && v.blocks[i].addr == header && !v.blocks[i].used
      requires !CanSplit(v.blocks[i].size, want)
      modifies memory
      ensures Holds(memory.m, id, sentinel, AllocAt(v, i, want))
      ensures memory.m.ram == old(memory.m).ram
      ensures SameOutside(old(memory.m), memory.m, start, End() + HEADER, sentinel)
    {
      hide Ring.IsRing, Tagged, SameOutside, Tiled, Merged, Without, Addrs, Splice, HasBlock, AllocAt;
      ghost var m, end := memory.m, End();
      ReadsBlock(m, id, sentinel, v, start, end, i);
      AllocWholeHolds(m, id, sentinel, v, start, end, i, want);
      OwnFree(m, sentinel, v.free, v, start, end, header);
      TakenOutside(m, header, start, end, sentinel);
      Take(header);
      ghost var t := memory.m;
      FlagOutside(t, header, true, start, end, sentinel);
      memory.SetUsed(header, true);
      OutsideTrans(m, t, memory.m, start, end + HEADER, sentinel);
    }

    /** Lays a free header behind the first want bytes of block i of partition w. */
    method DivideBlock(header: int, want: nat, ghost w: View, ghost i: nat)
      requires HeapSpec.Valid(w, start, End()) && Placed(memory.m, start, End(), sentinel) && Holds(memory.m, id, sentinel, w)
      requires i < |w.blocks| - 1 && w.blocks[i].addr == header
      requires header + HEADER + want + HEADER <= w.blocks[i].End()
      modifies memory
      ensures var n := header + HEADER + want;
        && Ring.IsRing(memory.m.next, memory.m.prev, InsertAt(Addrs(w.blocks), i + 1, n))
        && Ring.IsRing(memory.m.nextFree, memory.m.prevFree, [sentinel] + w.free)
        && Tagged(memory.m.used, memory.m.pool, id, w.blocks)
        && n in memory.m.used && !memory.m.used[n] && n in memory.m.pool && memory.m.pool[n] == id
        && start <= n <= End() && n !in w.free && n != sentinel
        && header in memory.m.next && n in memory.m.next && memory.m.next[n] == w.blocks[i + 1].addr
      ensures KeepsOthers(old(memory.m).ram, memory.m.ram, w.blocks, i, want) && |memory.m.ram| == |old(memory.m.ram)|
      ensures SameOutside(old(memory.m), memory.m, start, End() + HEADER, sentinel)
    {
      hide Ring.IsRing, Tagged, SameOutside, HeapSpec.Valid, KeepsOthers, Outside, Without, Addrs, HasBlock, InsertAt, Overwrite;
      ghost var m, end, n := memory.m, End(), header + HEADER + want;
      RoomInside(w, start, end, sentinel, i, n);
      ReadsBlock(m, id, sentinel, w, start, end, i);
      OwnBlock(w, start, end, i);
      OwnBlock(w, start, end, i + 1);
      var junk := Divide(header, header + HEADER + want);
      DividedHolds(m, id, sentinel, w, start, end, i, n, junk);
      DividedLinks(m, id, header, n, junk);
      DividedOutside(m, id, header, n, junk, start, end, sentinel);
      DividedKeepsOthers(m, id, w, start, end, i, want, junk);
      NotListed(w, start, end, n);
    }

    method AllocSplit(header: int, want: nat, ghost i: nat)
      requires Valid() && i < |v.blocks| - 1 && v.blocks[i].addr == header && !v.blocks[i].used
      requires CanSplit(v.blocks[i].size, want)
      modifies memory
      ensures Holds(memory.m, id, sentinel, AllocAt(v, i, want))
      ensures |memory.m.ram| == |old(memory.m).ram| && KeepsPayload(old(memory.m).ram, memory.m.ram, v.blocks)
      ensures SameOutside(old(memory.m), memory.m, start, End() + HEADER, sentinel)
    {
      hide Ring.IsRing, Tagged, SameOutside, HeapSpec.Valid, KeepsPayload, KeepsOthers, Without, Addrs, Splice, HasBlock, AllocAt, InsertAt;
      var n := header + HEADER + want;
      ghost var m, end := memory.m, End();
      RoomInside(v, start, end, sentinel, i, n);
      DivideBlock(header, want, v, i);
      ghost var d := memory.m;
      TaggedHas(d.used, d.pool, id, v.blocks, i);
      KeepsFreeBlock(m.ram, d.ram, v.blocks, i, want);
      ListedHere(v, start, end, i, n);
      AllocSplitFreeRing(d, sentinel, v, start, end, header, n);
      Relist(header, n, i);
      ghost var p := memory.m;
      OutsideTrans(m, d, p, start, end + HEADER, sentinel);
      OwnBlock(v, start, end, i);
      SplitSettled(p.used, p.pool, id, v, start, end, i, want);
      AllocSplitFree(v, i, want);
      memory.SetUsed(header, true);
      FlagOutside(p, header, true, start, end, sentinel);
      OutsideTrans(m, p, memory.m, start, end + HEADER, sentinel);
    }

    /** The free list gives header up and gets n. */
    method Relist(header: int, n: int, ghost i: nat)
      requires HeapSpec.Valid(v, start, End()) && i < |v.blocks| - 1 && v.blocks[i].addr == header && header in v.free
      requires Ring.IsRing(memory.m.nextFree, memory.m.prevFree, [sentinel] + v.free)
      requires start <= n <= End() && n != sentinel && header in memory.m.nextFree && header in memory.m.prevFree
      requires sentinel in Taken(memory.m, header).nextFree
      requires forall x :: x in Without(v.free, header) ==> x in v.free
      modifies memory
      ensures memory.m == FreePushed(Taken(old(memory.m), header), sentinel, n)
      ensures SameOutside(old(memory.m), memory.m, start, End() + HEADER, sentinel)
    {
      hide Ring.IsRing, SameOutside, HeapSpec.Valid, Without, HasBlock;
      ghost var d, end := memory.m, End();
      OwnFree(d, sentinel, v.free, v, start, end, header);
      TakenOutside(d, header, start, end, sentinel);
      TakenRing(d, sentinel, v.free, header);
      Take(header);
      ghost var t := memory.m;
      OwnFree(t, sentinel, Without(v.free, header), v, start, end, sentinel);
      PushedOutside(t, sentinel, n, start, end);
      Push(n);
      OutsideTrans(d, t, memory.m, start, end + HEADER, sentinel);
    }

    /** A pointer that rt_memheap_alloc has handed out and that is still in use. */
    ghost predicate Owned(ptr: int)
      reads this
    {
      exists i :: InUse(v, i, ptr)
    }

    /** Merges header with its free left neighbour, if there is one; returns the header of the result. */
    method MergeLeft(header: int, ghost i: nat) returns (h: int, merged: bool)
      requires HeapSpec.Valid(v, start, End()) && i < |v.blocks| - 1 && v.blocks[i].used && v.blocks[i].addr == header
      requires Ring.IsRing(memory.m.next, memory.m.prev, Addrs(v.blocks))
      requires header in memory.m.prev && header in memory.m.next && memory.m.prev[header] in memory.m.used
      requires memory.m.used[memory.m.prev[header]] <==> !LeftFree(v, i)
      requires LeftFree(v, i) ==> memory.m.prev[header] == v.blocks[i - 1].addr
      requires memory.m.next[header] == v.blocks[i + 1].addr
      modifies memory, this`available
      ensures merged == LeftFree(v, i) && h == v.blocks[FreeLo(v, i)].addr
      ensures memory.m == if merged then Unlinked(old(memory.m), header) else old(memory.m)
      ensures available == old(available) + if merged then HEADER else 0
      ensures Ring.IsRing(memory.m.next, memory.m.prev, if merged then RemoveAt(Addrs(v.blocks), i) else Addrs(v.blocks))
      ensures h in memory.m.next && memory.m.next[h] == v.blocks[i + 1].addr
    {
      h, merged := header, false;
      if !memory.m.used[memory.m.prev[header]] {
        available := available + HEADER;
        MergeLeftRing(memory.m, Addrs(v.blocks), i);
        h := memory.m.prev[header];
        Unlink(header);
        merged := true;
      }
    }

    /** Takes the free right neighbour n of block i out of both rings. */
    method TakeRight(n: int, ghost i: nat)
      requires HeapSpec.Valid(v, start, End()) && i < |v.blocks| - 1 && v.blocks[i].used && RightFree(v, i) && n == v.blocks[i + 1].addr
      requires Ring.IsRing(memory.m.next, memory.m.prev, LeftMerged(v, i))
      requires Ring.IsRing(memory.m.nextFree, memory.m.prevFree, [sentinel] + v.free)
      modifies memory
      ensures var o := old(memory.m);
        memory.m == o.(next := memory.m.next, prev := memory.m.prev, nextFree := memory.m.nextFree, prevFree := memory.m.prevFree)
      ensures FreeLo(v, i) + 1 < |LeftMerged(v, i)| && Ring.IsRing(memory.m.next, memory.m.prev, RemoveAt(LeftMerged(v, i), FreeLo(v, i) + 1))
      ensures Ring.IsRing(memory.m.nextFree, memory.m.prevFree, [sentinel] + WithoutRight(v, i))
      ensures SameOutside(old(memory.m), memory.m, start, End() + HEADER, sentinel)
    {
      hide Ring.IsRing, HeapSpec.Valid, SameOutside, HasBlock, RemoveAt, LeftMerged, WithoutRight;
      ghost var m, end := memory.m, End();
      RightUnlinked(m, sentinel, v, start, end, i);
      Unlink(n);
      ghost var u := memory.m;
      RightDetached(u, sentinel, v, start, end, i);
      Detach(n);
      OutsideTrans(m, u, memory.m, start, end + HEADER, sentinel);
    }

    /** Merges header with its right neighbour, if that one is free. */
    method MergeRight(header: int, ghost i: nat)
      requires HeapSpec.Valid(v, start, End()) && i < |v.blocks| - 1 && v.blocks[i].used
      requires Ring.IsRing(memory.m.next, memory.m.prev, LeftMerged(v, i))
      requires Ring.IsRing(memory.m.nextFree, memory.m.prevFree, [sentinel] + v.free)
      requires header in memory.m.next && memory.m.next[header] == v.blocks[i + 1].addr
      requires v.blocks[i + 1].addr in memory.m.used && (memory.m.used[v.blocks[i + 1].addr] <==> !RightFree(v, i))
      modifies memory, this`available
      ensures available == old(available) + if RightFree(v, i) then HEADER else 0
      ensures memory.m.used == old(memory.m.used) && memory.m.pool == old(memory.m.pool) && memory.m.ram == old(memory.m.ram)
      ensures FreeLo(v, i) + 1 < |LeftMerged(v, i)|
      ensures Ring.IsRing(memory.m.next, memory.m.prev, if RightFree(v, i) then RemoveAt(LeftMerged(v, i), FreeLo(v, i) + 1) else LeftMerged(v, i))
      ensures Ring.IsRing(memory.m.nextFree, memory.m.prevFree, [sentinel] + WithoutRight(v, i))
      ensures SameOutside(old(memory.m), memory.m, start, End() + HEADER, sentinel)
    {
      hide Ring.IsRing, HeapSpec.Valid, SameOutside, HasBlock, Without, LeftMerged;
      OutsideSame(memory.m, start, End(), sentinel);
      LeftMergedSize(v, i);
      if !memory.m.used[memory.m.next[header]] {
        available := available + HEADER;
        TakeRight(memory.m.next[header], i);
      }
    }

    /** A freed block that has not joined its left neighbour is put on the free list. */
    method ListFreed(header: int, ghost i: nat)
      requires HeapSpec.Valid(v, start, End()) && i < |v.blocks| - 1 && v.blocks[i].used && v.blocks[i].addr == header
      requires Ring.IsRing(memory.m.nextFree, memory.m.prevFree, [sentinel] + WithoutRight(v, i))
      requires Apart(sentinel, start, poolSize)
      modifies memory
      ensures var o := old(memory.m);
        memory.m == o.(nextFree := memory.m.nextFree, prevFree := memory.m.prevFree)
      ensures Ring.IsRing(memory.m.nextFree, memory.m.prevFree, [sentinel] + ([header] + WithoutRight(v, i)))
      ensures SameOutside(old(memory.m), memory.m, start, End() + HEADER, sentinel)
    {
      hide Ring.IsRing, SameOutside, HeapSpec.Valid, WithoutRight;
      ghost var r, end := memory.m, End();
      WithoutRightMembers(v, start, end, i);
      OwnFree(r, sentinel, WithoutRight(v, i), v, start, end, sentinel);
      OwnBlock(v, start, end, i);
      FreePushedRing(r, sentinel, WithoutRight(v, i), header);
      PushedOutside(r, sentinel, header, start, end);
      Push(header);
    }

    /** The first half of rt_memheap_free: the block is marked free, counted, and merged with a free left neighbour. */
    method Release(header: int, ghost i: nat) returns (h: int, merged: bool)
      requires Valid() && i < |v.blocks| - 1 && v.blocks[i].used && v.blocks[i].addr == header
      modifies memory, this`available
      ensures merged == LeftFree(v, i) && h == v.blocks[FreeLo(v, i)].addr
      ensures Ring.IsRing(memory.m.next, memory.m.prev, LeftMerged(v, i))
      ensures Ring.IsRing(memory.m.nextFree, memory.m.prevFree, [sentinel] + v.free)
      ensures header in old(memory.m.used) && memory.m.used == old(memory.m.used)[header := false]
      ensures memory.m.pool == old(memory.m.pool) && memory.m.ram == old(memory.m.ram)
      ensures h in memory.m.next && memory.m.next[h] == v.blocks[i + 1].addr
      ensures v.blocks[i + 1].addr in memory.m.used && (memory.m.used[v.blocks[i + 1].addr] <==> !RightFree(v, i))
      ensures available == old(available) + v.blocks[i].size + if merged then HEADER else 0
      ensures SameOutside(old(memory.m), memory.m, start, End() + HEADER, sentinel)
    {
      hide Ring.IsRing, Tagged, HeapSpec.Valid, HasBlock, SameOutside, Addrs, RemoveAt;
      ghost var m, end := memory.m, End();
      FreeReads(m, id, sentinel, v, start, end, i);
      memory.SetUsed(header, false);
      FlagOutside(m, header, false, start, end, sentinel);
      ghost var u := memory.m;
      available := available + ItemSize(header);
      h, merged := MergeLeft(header, i);
      UnlinkedOutside(u, header, start, end, sentinel);
      OutsideSame(u, start, end, sentinel);
      OutsideTrans(m, u, memory.m, start, end + HEADER, sentinel);
    }

    /** rt_memheap_free */
    method Free(ptr: int)
      requires Valid() && (ptr == NULL || Owned(ptr))
      modifies this, memory
      ensures Valid()
      ensures ptr == NULL ==> v == old(v) && available == old(available) && memory.m == old(memory.m)
      ensures ptr != NULL ==> v == FreeAt(old(v), Find(old(v.blocks), ptr - HEADER))
      ensures maxUsed == old(maxUsed) && memory.m.ram == old(memory.m.ram)
      ensures SameOutside(old(memory.m), memory.m, start, End() + HEADER, sentinel)
    {
      hide Ring.IsRing, Tagged, HeapSpec.Valid, FreeAt, FreeBytes, HasBlock, Find, SameOutside, Addrs, Without, RemoveAt, WithoutRight;
      OutsideSame(memory.m, start, End(), sentinel);
      if ptr == NULL {
        return;
      }
      ghost var m, end := memory.m, End();
      ghost var i := PointsTo(v, start, end, ptr);
      FreeKeepsValid(v, start, end, i);
      FreeFreeBytes(v, start, end, i);
      var header, merged := Release(ptr - HEADER, i);
      ghost var l := memory.m;
      FreeTagged(m.used, m.pool, id, v, start, end, i);
      MergeRight(header, i);
      ghost var r := memory.m;
      OutsideTrans(m, l, r, start, end + HEADER, sentinel);
      if !merged {
        ListFreed(header, i);
        OutsideTrans(m, r, memory.m, start, end + HEADER, sentinel);
      }
      FreedHolds(memory.m, id, sentinel, v, i);
      hide LeftMerged, FreeLo, LeftFree, RightFree;
      v := FreeAt(v, i);
    }

    /** Puts the new free header n at the head of the free list, whose order so far is free. */
    method PushTail(n: int, ghost w: View, ghost free: seq<int>)
      requires HeapSpec.Valid(w, start, End()) && (forall x :: x in free ==> x in w.free)
      requires Ring.IsRing(memory.m.nextFree, memory.m.prevFree, [sentinel] + free)
      requires n !in free && n != sentinel && start <= n <= End()
      modifies memory
      ensures var o := old(memory.m);
        memory.m == o.(nextFree := memory.m.nextFree, prevFree := memory.m.prevFree)
      ensures Ring.IsRing(memory.m.nextFree, memory.m.prevFree, [sentinel] + ([n] + free))
      ensures SameOutside(old(memory.m), memory.m, start, End() + HEADER, sentinel)
    {
      hide Ring.IsRing, SameOutside, HeapSpec.Valid, HasBlock;
      OwnFree(memory.m, sentinel, free, w, start, End(), sentinel);
      FreePushedRing(memory.m, sentinel, free, n);
      PushedOutside(memory.m, sentinel, n, start, End());
      Push(n);
    }

    /** Takes the free right neighbour of block i out of both rings. */
    method Absorb(x: int, ghost i: nat)
      requires HeapSpec.Valid(v, start, End()) && Placed(memory.m, start, End(), sentinel) && Holds(memory.m, id, sentinel, v)
      requires i < |v.blocks| - 1 && v.blocks[i].used && RightFree(v, i) && v.blocks[i + 1].addr == x
      modifies memory
      ensures Holds(memory.m, id, sentinel, AbsorbRight(v, i)) && memory.m.ram == old(memory.m.ram)
      ensures SameOutside(old(memory.m), memory.m, start, End() + HEADER, sentinel)
    {
      hide Ring.IsRing, Tagged, SameOutside, HeapSpec.Valid, Without, Addrs, HasBlock, RemoveAt;
      ghost var m, end := memory.m, End();
      RightListed(v, start, end, i);
      OwnFree(m, sentinel, v.free, v, start, end, x);
      FreeUnlinkedRing(m, sentinel, v.free, x);
      TakenOutside(m, x, start, end, sentinel);
      Detach(x);
      ghost var d := memory.m;
      RingNeighbours(d, Addrs(v.blocks), i + 1, start, end);
      UnlinkedRing(d, Addrs(v.blocks), i + 1);
      UnlinkedOutside(d, x, start, end, sentinel);
      Unlink(x);
      OutsideTrans(m, d, memory.m, start, end + HEADER, sentinel);
      AbsorbedAddrs(v, i);
      AbsorbTagged(d.used, d.pool, id, v, i);
    }

    /** The realloc path that uses the free right neighbour without moving. */
    method Grow(header: int, want: nat, ghost i: nat)
      requires Valid() && i < |v.blocks| - 1 && v.blocks[i].used && v.blocks[i].addr == header && GrowsInPlace(v, i, want)
      modifies this, memory
      ensures Valid() && v == ResizeAt(old(v), i, want)
      ensures maxUsed == Max(old(maxUsed), poolSize - available)
      ensures KeepsOthers(old(memory.m).ram, memory.m.ram, old(v.blocks), i, old(v.blocks[i].size))
      ensures SameOutside(old(memory.m), memory.m, start, End() + HEADER, sentinel)
    {
      hide Ring.IsRing, Tagged, SameOutside, HeapSpec.Valid, KeepsOthers, Without, Addrs, HasBlock, RemoveAt, FreeBytes, ResizeAt;
      ghost var m, end, n, w := memory.m, End(), header + HEADER + want, AbsorbRight(v, i);
      GrowRoom(v, start, end, i, want);
      ReadsBlock(m, id, sentinel, v, start, end, i);
      Account(want - ItemSize(header));
      ResizeKeepsValid(v, start, end, i, want);
      ResizeFreeBytes(v, start, end, i, want);
      AbsorbKeepsValid(v, start, end, i);
      ResizeAbsorbed(v, start, end, i, want);
      Absorb(memory.m.next[header], i);
      ghost var a := memory.m;
      DivideBlock(header, want, w, i);
      ghost var d := memory.m;
      OutsideTrans(m, a, d, start, end + HEADER, sentinel);
      AbsorbKeepsOthers(a.ram, d.ram, v, i, want);
      KeepsFewer(a.ram, d.ram, v.blocks, i, want, v.blocks[i].size);
      PushTail(header + HEADER + want, w, w.free);
      OutsideTrans(m, d, memory.m, start, end + HEADER, sentinel);
      ResizedAddrs(w, i, want);
      ResizedTagged(d.used, d.pool, id, w, start, end, i, want);
      v := ResizeAt(v, i, want);
    }

    /** The realloc path that cuts the block and frees its tail. */
    method Shrink(header: int, want: nat, ghost i: nat)
      requires Valid() && i < |v.blocks| - 1 && v.blocks[i].used && v.blocks[i].addr == header && Shrinks(v, i, want)
      modifies this, memory
      ensures Valid() && v == ResizeAt(old(v), i, want) && maxUsed == old(maxUsed)
      ensures KeepsOthers(old(memory.m).ram, memory.m.ram, old(v.blocks), i, want)
      ensures SameOutside(old(memory.m), memory.m, start, End() + HEADER, sentinel)
    {
      hide Ring.IsRing, Tagged, SameOutside, HeapSpec.Valid, KeepsOthers, Without, Addrs, HasBlock, RemoveAt, FreeBytes, ResizeAt;
      ghost var m, end, n := memory.m, End(), header + HEADER + want;
      ShrinkRoom(v, start, end, i, want);
      ResizeKeepsValid(v, start, end, i, want);
      ResizeFreeBytes(v, start, end, i, want);
      DivideBlock(header, want, v, i);
      ghost var d := memory.m;
      MergeTail(header + HEADER + want, i);
      ghost var t := memory.m;
      OutsideTrans(m, d, t, start, end + HEADER, sentinel);
      PushTail(header + HEADER + want, v, WithoutRight(v, i));
      OutsideTrans(m, t, memory.m, start, end + HEADER, sentinel);
      ResizedAddrs(v, i, want);
      ResizedTagged(d.used, d.pool, id, v, start, end, i, want);
      available := available + ItemSize(header + HEADER + want);
      v := ResizeAt(v, i, want);
    }

    /** Joins the freshly cut tail n of block i with a free right neighbour. */
    method MergeTail(n: int, ghost i: nat)
      requires HeapSpec.Valid(v, start, End()) && i < |v.blocks| - 1 && v.blocks[i].used
      requires Ring.IsRing(memory.m.next, memory.m.prev, InsertAt(Addrs(v.blocks), i + 1, n))
      requires Ring.IsRing(memory.m.nextFree, memory.m.prevFree, [sentinel] + v.free)
      requires Tagged(memory.m.used, memory.m.pool, id, v.blocks) && start <= n <= End()
      requires n in memory.m.next && memory.m.next[n] == v.blocks[i + 1].addr
      modifies memory, this`available
      ensures var s := InsertAt(Addrs(v.blocks), i + 1, n);
        Ring.IsRing(memory.m.next, memory.m.prev, if RightFree(v, i) then RemoveAt(s, i + 2) else s)
      ensures Ring.IsRing(memory.m.nextFree, memory.m.prevFree, [sentinel] + WithoutRight(v, i))
      ensures memory.m.used == old(memory.m.used) && memory.m.pool == old(memory.m.pool) && memory.m.ram == old(memory.m.ram)
      ensures n in memory.m.next && memory.m.next[n] == v.blocks[FreeHi(v, i)].End()
      ensures available == old(available) - if RightFree(v, i) then v.blocks[i + 1].size else 0
      ensures SameOutside(old(memory.m), memory.m, start, End() + HEADER, sentinel)
    {
      hide Ring.IsRing, SameOutside, HeapSpec.Valid, Without, Addrs, HasBlock, RemoveAt, InsertAt;
      ghost var m, end, s := memory.m, End(), InsertAt(Addrs(v.blocks), i + 1, n);
      OutsideSame(m, start, end, sentinel);
      TailNode(m, v, start, end, i, n);
      if !memory.m.used[memory.m.next[n]] {
        var x := memory.m.next[n];
        available := available - ItemSize(x);
        RingNeighbours(m, s, i + 2, start, end);
        UnlinkedRing(m, s, i + 2);
        UnlinkedOutside(m, x, start, end, sentinel);
        Unlink(x);
        ghost var u := memory.m;
        RightListed(v, start, end, i);
        OwnFree(u, sentinel, v.free, v, start, end, x);
        FreeUnlinkedRing(u, sentinel, v.free, x);
        TakenOutside(u, x, start, end, sentinel);
        Detach(x);
        OutsideTrans(m, u, memory.m, start, end + HEADER, sentinel);
      }
    }

    /** The realloc path that allocates anew, copies and frees. */
    method Move(ptr: int, want: nat, ghost i: nat) returns (r: int)
      requires Valid() && InUse(v, i, ptr) && want > v.blocks[i].size && Rounded(want) == want
      modifies this, memory
      ensures Valid() && maxUsed == Max(old(maxUsed), poolSize - FreeBytes(HeapSpec.Alloc(old(v), want).blocks))
      ensures var was := old(v);
        && (r == NULL <==> Refuses(was, want))
        && (r == NULL ==> v == was && memory.m == old(memory.m))
        && (r != NULL ==> v == FreeAt(HeapSpec.Alloc(was, want), MovedIndex(was, i, want))
                          && r == was.blocks[Chosen(was, want)].addr + HEADER
                          && Carried(old(memory.m.ram), memory.m.ram, ptr, r, was.blocks[i].size))
      ensures KeepsOthers(old(memory.m).ram, memory.m.ram, old(v.blocks), i, 0)
      ensures SameOutside(old(memory.m), memory.m, start, End() + HEADER, sentinel)
    {
      hide Ring.IsRing, Tagged, SameOutside, HeapSpec.Valid, KeepsOthers, KeepsPayload, Without, Addrs, HasBlock, Listed, FreeBytes, FreeAt, AllocAt, Carried, Find, Holds, HeapSpec.Alloc, MovedIndex, Overwrite;
      ghost var m, was, end := memory.m, v, End();
      ValidNamed(v, start, end);
      RefusedIsSame(v, want);
      ReadsBlock(m, id, sentinel, v, start, end, i);
      ReadsRight(m, id, sentinel, v, start, end, i);
      var oldsize := ItemSize(ptr - HEADER);
      r := Alloc(want);
      ghost var a := memory.m;
      if r != NULL {
        ghost var k, c := MovedIndex(was, i, want), Chosen(was, want);
        AllocKeepsBlock(was, start, end, i, want);
        CopyStays(a, id, sentinel, was, v, start, end, i, want, ptr, r, oldsize);
        memory.Copy(r, ptr, if oldsize < want then oldsize else want);
        ghost var b := memory.m;
        CopyCarries(m, a, b, was, start, end, i, want, ptr, r, oldsize);
        OutsideTrans(m, a, b, start, end + HEADER, sentinel);
        assert InUse(v, k, ptr);
        PointsAt(v, start, end, k, ptr);
        Free(ptr);
        OutsideTrans(m, b, memory.m, start, end + HEADER, sentinel);
      } else {
        PayloadKeeps(m.ram, a.ram, was.blocks, i);
      }
    }

    /** The growth test of rt_memheap_realloc; its sums are taken in 32 bits. */
    method CanGrow(header: int, want: nat, ghost i: nat) returns (grow: bool)
      requires Valid() && i < |v.blocks| - 1 && v.blocks[i].used && v.blocks[i].addr == header
      requires want > v.blocks[i].size && GrowthDecides(v, i, want)
      ensures grow == GrowsInPlace(v, i, want) == RoomBehind(v, i, want)
    {
      hide Ring.IsRing, Tagged, HeapSpec.Valid, Addrs, HasBlock;
      ReadsBlock(memory.m, id, sentinel, v, start, End(), i);
      ReadsRight(memory.m, id, sentinel, v, start, End(), i);
      PairFits(v, start, End(), i);
      GrowsWhere(v, start, End(), i, want);
      var next := memory.m.next[header];
      grow := !memory.m.used[next] && GrowTest(ItemSize(header), ItemSize(next), want);
    }

    /** rt_memheap_realloc for a block in use and a size that is rounded already. */
    method ReallocBlock(ptr: int, want: nat, ghost i: nat) returns (r: int)
      requires Valid() && InUse(v, i, ptr) && Rounded(want) == want && GrowthDecides(v, i, want)
      modifies this, memory
      ensures Valid() && maxUsed == Max(old(maxUsed), poolSize - LowestFree(old(v), i, want))
      ensures var was := old(v);
        && v == HeapSpec.Realloc(was, i, want)
        && (r == NULL <==> Stuck(was, i, want))
        && (r == NULL ==> v == was && memory.m == old(memory.m))
        && (r != NULL ==> r == Landing(was, i, want) + HEADER)
        && (r != NULL ==> Carried(old(memory.m.ram), memory.m.ram, ptr, r, Remaining(was.blocks[i].size, want)))
        && KeepsOthers(old(memory.m).ram, memory.m.ram, was.blocks, i, 0)
      ensures SameOutside(old(memory.m), memory.m, start, End() + HEADER, sentinel)
    {
      hide Ring.IsRing, Tagged, SameOutside, HeapSpec.Valid, KeepsOthers, KeepsPayload, Without, Addrs, HasBlock, Listed, FreeBytes, FreeAt, AllocAt, Carried, Find, Holds, ResizeAt;
      ghost var m, was, end := memory.m, v, End();
      ValidNamed(v, start, end);
      OutsideSame(m, start, end, sentinel);
      var header := ptr - HEADER;
      ReadsBlock(m, id, sentinel, v, start, end, i);
      OwnBlock(v, start, end, i);
      PairFits(v, start, end, i);
      var oldsize := ItemSize(header);
      r := ptr;
      if want > oldsize {
        var grow := CanGrow(header, want, i);
        if grow {
          Grow(header, want, i);
          KeepsInPlace(m.ram, memory.m.ram, was.blocks, i, oldsize);
        } else {
          r := Move(ptr, want, i);
        }
      } else if want + HEADER + MINIALLOC >= oldsize {
        StaysPut(m.ram, was.blocks, i, oldsize);
      } else {
        Shrink(header, want, i);
        KeepsInPlace(m.ram, memory.m.ram, was.blocks, i, want);
      }
    }

    /** rt_memheap_realloc */
    method Realloc(ptr: int, newsize: nat) returns (r: int)
      requires Valid() && (ptr == NULL || Owned(ptr))
      requires newsize > 0 ==> forall i :: InUse(v, i, ptr) ==> GrowthDecides(v, i, Rounded(newsize))
      modifies this, memory
      ensures Valid() && maxUsed >= old(maxUsed)
      ensures newsize > 0 && ptr != NULL ==>
        maxUsed == Max(old(maxUsed), poolSize - LowestFree(old(v), Find(old(v.blocks), ptr - HEADER), Rounded(newsize)))
      ensures newsize == 0 ==>
        && r == NULL && maxUsed == old(maxUsed) && memory.m.ram == old(memory.m.ram)
        && v == if ptr == NULL then old(v) else FreeAt(old(v), Find(old(v.blocks), ptr - HEADER))
      ensures newsize > 0 && ptr == NULL ==>
        var was, want := old(v), Rounded(newsize);
        && v == HeapSpec.Alloc(was, want) && maxUsed == Max(old(maxUsed), poolSize - available)
        && (r == NULL <==> Refuses(was, want))
        && (r == NULL ==> memory.m == old(memory.m))
        && (r != NULL ==> r == was.blocks[Chosen(was, want)].addr + HEADER)
        && KeepsPayload(old(memory.m).ram, memory.m.ram, was.blocks)
      ensures newsize > 0 && ptr != NULL ==>
        var was, want, i := old(v), Rounded(newsize), Find(old(v.blocks), ptr - HEADER);
        && v == HeapSpec.Realloc(was, i, want)
        && (r == NULL <==> Stuck(was, i, want))
        && (r == NULL ==> v == was && memory.m == old(memory.m))
        && (r != NULL ==> r == Landing(was, i, want) + HEADER)
        && (r != NULL ==> Carried(old(memory.m.ram), memory.m.ram, ptr, r, Remaining(was.blocks[i].size, want)))
        && KeepsOthers(old(memory.m).ram, memory.m.ram, was.blocks, i, 0)
      ensures SameOutside(old(memory.m), memory.m, start, End() + HEADER, sentinel)
    {
      hide Ring.IsRing, Tagged, SameOutside, HeapSpec.Valid, KeepsOthers, KeepsPayload, Without, Addrs, HasBlock, Listed, FreeBytes, FreeAt, AllocAt, Carried, Find, Holds, ResizeAt,
        HeapSpec.Alloc, HeapSpec.Realloc, GrowthDecides, LowestFree, Chosen, Refuses, Stuck, Landing;
      ValidNamed(v, start, End());
      if newsize == 0 {
        Free(ptr);
        return NULL;
      }
      var want := Rounded(newsize);
      RoundedTwice(newsize);
      if ptr == NULL {
        r := Alloc(want);
        return;
      }
      ghost var i := PointsTo(v, start, End(), ptr);
      assert InUse(v, i, ptr);
      r := ReallocBlock(ptr, want, i);
    }
  }
}
