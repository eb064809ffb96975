// rt-thread/src/memheap.c, the system heap: rt_malloc, rt_free and rt_realloc over a
// default heap and every other registered memheap. The heaps share one memory and lie in
// it side by side; the main concern is that a call served by one of them leaves all
// others, and every payload in them, as they were.
module SystemHeap {
  import opened Words
  import opened HeapSpec
  import opened HeapLaws
  import opened Memory
  import opened MemHeapLinks
  import opened MemHeap
  import Ring

  /** The pools and sentinels of two heaps do not meet. */
  ghost predicate Separate(h: MemHeap, g: MemHeap) {
    && (h.End() + HEADER <= g.start || g.End() + HEADER <= h.start)
    && h.sentinel != g.sentinel
    && Apart(h.sentinel, g.start, g.End() + HEADER - g.start)
    && Apart(g.sentinel, h.start, h.End() + HEADER - h.start)
  }

  /** Address x is not among the headers written: s and those from lo to hi. */
  ghost predicate Clear(x: int, lo: int, hi: int, s: int) {
    x != s && Apart(x, lo, hi - lo)
  }

  lemma ClearOfWrites(v: View, start: int, end: int, lo: int, hi: int, s: int)
    requires HeapSpec.Valid(v, start, end)
    requires end + HEADER <= lo || hi <= start
    requires Apart(s, start, end + HEADER - start)
    ensures forall x :: x in Addrs(v.blocks) || x in v.free ==> Clear(x, lo, hi, s)
    ensures forall i :: 0 <= i < |v.blocks| - 1 ==> start <= v.blocks[i].addr && v.blocks[i].End() <= end
  {
    forall i | 0 <= i < |v.blocks|
      ensures Clear(Addrs(v.blocks)[i], lo, hi, s)
      ensures start <= v.blocks[i].addr && (i < |v.blocks| - 1 ==> v.blocks[i].End() <= end)
    {
      OwnBlock(v, start, end, i);
    }
    forall x | x in v.free
      ensures Clear(x, lo, hi, s)
    {
      var i := FindListed(v, start, end, x);
      assert x == Addrs(v.blocks)[i];
    }
  }

  lemma SentinelClear(x: int, lo: int, hi: int, s: int)
    requires x != s && Apart(x, lo, hi - lo)
    ensures Clear(x, lo, hi, s)
  {
  }

  lemma RingStays(nx: map<int, int>, pv: map<int, int>, nx': map<int, int>, pv': map<int, int>, r: seq<int>, lo: int, hi: int, s: int)
    requires Ring.IsRing(nx, pv, r) && SameHeaders(nx, nx', lo, hi, s) && SameHeaders(pv, pv', lo, hi, s)
    requires forall x :: x in r ==> Clear(x, lo, hi, s)
    ensures Ring.IsRing(nx', pv', r)
  {
    hide Ring.IsRing;
    Ring.Frame(nx, pv, nx', pv', r);
  }

  lemma TagsStay(m: Mem, m': Mem, id: int, bs: seq<Block>, lo: int, hi: int, s: int)
    requires Tagged(m.used, m.pool, id, bs)
    requires SameHeaders(m.used, m'.used, lo, hi, s) && SameHeaders(m.pool, m'.pool, lo, hi, s)
    requires forall x :: x in Addrs(bs) ==> Clear(x, lo, hi, s)
    ensures Tagged(m'.used, m'.pool, id, bs)
  {
    forall i | 0 <= i < |bs|
      ensures bs[i].addr in m'.used && m'.used[bs[i].addr] == bs[i].used
      ensures bs[i].addr in m'.pool && m'.pool[bs[i].addr] == id
    {
      assert Clear(Addrs(bs)[i], lo, hi, s);
    }
  }

  lemma BytesStay(m: Mem, m': Mem, v: View, start: int, end: int, lo: int, hi: int)
    requires forall i :: 0 <= i < |v.blocks| - 1 ==> start <= v.blocks[i].addr && v.blocks[i].End() <= end
    requires NULL < start && end + HEADER <= |m.ram| && (end + HEADER <= lo || hi <= start)
    requires |m.ram| == |m'.ram| && forall a :: 0 <= a < |m.ram| && !(lo <= a < hi) ==> m.ram[a] == m'.ram[a]
    ensures KeepsHeap(m, m', v)
  {
  }

  /** What one heap does inside its pool, another heap does not notice. */
  lemma Undisturbed(m: Mem, m': Mem, id: int, sentinel: int, v: View, start: int, end: int, lo: int, hi: int, s: int)
    requires HeapSpec.Valid(v, start, end) && Placed(m, start, end, sentinel) && Holds(m, id, sentinel, v)
    requires SameOutside(m, m', lo, hi + HEADER, s)
    requires end + HEADER <= lo || hi + HEADER <= start
    requires s != sentinel && Apart(sentinel, lo, hi + HEADER - lo)
    requires Apart(s, start, end + HEADER - start)
    ensures Placed(m', start, end, sentinel) && Holds(m', id, sentinel, v)
    ensures KeepsHeap(m, m', v)
  {
    hide Clear, KeepsHeap, Ring.IsRing, SameHeaders, Addrs, Tagged, HeapSpec.Valid;
    ClearOfWrites(v, start, end, lo, hi + HEADER, s);
    SentinelClear(sentinel, lo, hi + HEADER, s);
    RingStays(m.nextFree, m.prevFree, m'.nextFree, m'.prevFree, [sentinel] + v.free, lo, hi + HEADER, s);
    RingStays(m.next, m.prev, m'.next, m'.prev, Addrs(v.blocks), lo, hi + HEADER, s);
    TagsStay(m, m', id, v.blocks, lo, hi + HEADER, s);
    BytesStay(m, m', v, start, end, lo, hi + HEADER);
  }

  class System {
    const memory: Ram
    const heaps: seq<MemHeap>   // the object list of class RT_Object_Class_MemHeap
    const main: nat             // the position of _heap in it

    constructor (memory: Ram, heaps: seq<MemHeap>, main: nat)
      requires main < |heaps| && Registered(memory, heaps)
      ensures this.memory == memory && this.heaps == heaps && this.main == main && Valid()
    {
      this.memory, this.heaps, this.main := memory, heaps, main;
    }

    static ghost predicate Registered(memory: Ram, heaps: seq<MemHeap>)
      reads memory, heaps
    {
      && (forall i :: 0 <= i < |heaps| ==> heaps[i].memory == memory && heaps[i].Valid())
      && (forall i, j :: 0 <= i < j < |heaps| ==> heaps[i] != heaps[j] && heaps[i].id != heaps[j].id && Separate(heaps[i], heaps[j]))
    }

    ghost predicate Valid()
      reads this, memory, heaps
    {
      main < |heaps| && Registered(memory, heaps)
    }

    /** The block behind ptr is in use in heap k. */
    ghost predicate Holder(k: nat, ptr: int)
      reads heaps
    {
      k < |heaps| && heaps[k].Owned(ptr)
    }

    /** Reading pool_ptr of a header in use leads to its heap. */
    method HeapOf(ptr: int, ghost k: nat) returns (r: nat)
      requires Valid() && Holder(k, ptr)
      ensures r == k
    {
      ghost var i := PointsTo(heaps[k].v, heaps[k].start, heaps[k].End(), ptr);
      r :| r < |heaps| && heaps[r].id == memory.m.pool[ptr - HEADER];
    }

    /** One heap has changed its own pool and nothing else. */
    twostate lemma Others(k: nat)
      requires k < |heaps| && old(Valid())
      requires forall j :: 0 <= j < |heaps| && j != k ==> unchanged(heaps[j])
      requires heaps[k].Valid()
      requires SameOutside(old(memory.m), memory.m, heaps[k].start, heaps[k].End() + HEADER, heaps[k].sentinel)
      ensures Valid()
      ensures forall j :: 0 <= j < |heaps| && j != k ==> KeepsPayload(old(memory.m).ram, memory.m.ram, heaps[j].v.blocks)
      ensures |memory.m.ram| == |old(memory.m).ram|
    {
      forall j | 0 <= j < |heaps| && j != k
        ensures heaps[j].Valid() && KeepsPayload(old(memory.m).ram, memory.m.ram, heaps[j].v.blocks)
      {
        var g, h := heaps[j], heaps[k];
        assert Separate(heaps[if j < k then j else k], heaps[if j < k then k else j]);
        Undisturbed(old(memory.m), memory.m, g.id, g.sentinel, g.v, g.start, g.End(), h.start, h.End(), h.sentinel);
        HeapKept(old(memory.m), memory.m, g.v, g.start, g.End());
      }
    }

    ghost function Views(): (vs: seq<View>)
      reads heaps
      ensures |vs| == |heaps| && forall i :: 0 <= i < |vs| ==> vs[i] == heaps[i].v
    {
      seq(|heaps|, i requires 0 <= i < |heaps| reads heaps => heaps[i].v)
    }

    /** One heap of the list. */
    method TryHeap(j: nat, size: nat) returns (ptr: int)
      requires Valid() && j < |heaps|
      modifies memory, heaps
      ensures Valid()
      ensures var vs, want := old(Views()), Rounded(size);
        && Named(vs[j].blocks, vs[j].free)
        && (ptr == NULL <==> Refuses(vs[j], want))
        && (ptr == NULL ==> Views() == vs && memory.m == old(memory.m))
        && (ptr != NULL ==> Views() == vs[j := HeapSpec.Alloc(vs[j], want)] && ptr == vs[j].blocks[Chosen(vs[j], want)].addr + HEADER)
      ensures KeepsAll(old(memory.m.ram), memory.m.ram, old(Views()))
    {
      hide HeapSpec.Valid, Holds, Placed, SameOutside, Refuses, HeapSpec.Alloc, Chosen, FirstFit, KeepsPayload, KeepsHeap, SameBytes, Named, Separate;
      ghost var h := heaps[j];
      ValidNamed(h.v, h.start, h.End());
      RefusedIsSame(h.v, Rounded(size));
      ptr := heaps[j].Alloc(size);
      Others(j);
    }

    /** rt_malloc */
    method Malloc(size: nat) returns (ptr: int, ghost k: nat)
      requires Valid()
      modifies memory, heaps
      ensures Valid() && AllNamed(old(Views()))
      ensures Allocated(old(Views()), Views(), main, k, Rounded(size), ptr)
      ensures ptr == NULL ==> memory.m == old(memory.m)
      ensures KeepsAll(old(memory.m.ram), memory.m.ram, old(Views()))
    {
      hide Registered, HeapSpec.Valid, KeepsAll, KeepsPayload, Refuses, HeapSpec.Alloc, Named, Chosen;
      NamedViews();
      k := main;
      ptr := TryHeap(main, size);
      if ptr == NULL {
        var j := 0;
        while j < |heaps|
          invariant j <= |heaps| && Valid() && ptr == NULL
          invariant Views() == old(Views()) && memory.m == old(memory.m) && KeepsAll(old(memory.m.ram), memory.m.ram, old(Views()))
          invariant forall i :: 0 <= i < |heaps| && (i == main || i < j) ==> Refuses(old(Views())[i], Rounded(size))
        {
          if j != main {
            ptr := TryHeap(j, size);
            if ptr != NULL {
              k := j;
              return;
            }
          }
          j := j + 1;
        }
      }
    }

    /** rt_free; k is the heap that rmem came from. */
    method Free(rmem: int, ghost k: nat)
      requires Valid() && (rmem == NULL || Holder(k, rmem))
      modifies memory, heaps
      ensures Valid()
      ensures rmem == NULL ==> Views() == old(Views()) && memory.m == old(memory.m)
      ensures rmem != NULL ==> Views() == old(Views())[k := FreeAt(old(Views())[k], Find(old(Views())[k].blocks, rmem - HEADER))]
      ensures memory.m.ram == old(memory.m.ram)
    {
      hide HeapSpec.Valid, Holds, Placed, SameOutside, FreeAt, Find, KeepsHeap, SameBytes, Separate;
      if rmem != NULL {
        var r := HeapOf(rmem, k);
        heaps[r].Free(rmem);
        Others(r);
      }
    }

    /** The part of rt_realloc that stays with the heap of the block. */
    method ReallocHere(rmem: int, newsize: nat, ghost k: nat, ghost i: nat) returns (r: int)
      requires Valid() && k < |heaps| && InUse(heaps[k].v, i, rmem) && rmem != NULL && newsize > 0
      requires GrowthDecides(heaps[k].v, i, Rounded(newsize))
      modifies memory, heaps
      ensures Valid() && AllNamed(old(Views()))
      ensures var vs, want := old(Views()), Rounded(newsize);
        && Views() == vs[k := HeapSpec.Realloc(vs[k], i, want)]
        && (r == NULL <==> Stuck(vs[k], i, want))
        && (r == NULL ==> Views() == vs && memory.m == old(memory.m))
        && (r != NULL ==> r == Landing(vs[k], i, want) + HEADER)
        && (r != NULL ==> Carried(old(memory.m.ram), memory.m.ram, rmem, r, Remaining(vs[k].blocks[i].size, want)))
        && KeepsAllBut(old(memory.m.ram), memory.m.ram, vs, k, i)
    {
      hide HeapSpec.Valid, Holds, Placed, SameOutside, KeepsOthers, KeepsHeap, SameBytes, Separate, Carried, Refuses, HeapSpec.Realloc, GrowsInPlace, Find, HasBlock, LowestFree, FreeBytes, Rounded, KeepsPayload, FreeAt, HeapSpec.Alloc, Chosen, Remaining, Landing;
      NamedViews();
      PointsAt(heaps[k].v, heaps[k].start, heaps[k].End(), i, rmem);
      OnlyBlock(heaps[k].v, heaps[k].start, heaps[k].End(), i, rmem);
      var n := HeapOf(rmem, k);
      r := heaps[n].Realloc(rmem, newsize);
      Others(n);
    }

    /** The copy of rt_realloc into a block that heap g has just served. */
    method CopyAcross(rmem: int, r: int, n: nat, ghost g: nat, ghost was: View, ghost want: nat)
      requires Valid() && g < |heaps| && HeapSpec.Valid(was, heaps[g].start, heaps[g].End())
      requires !Refuses(was, want) && heaps[g].v == HeapSpec.Alloc(was, want) && n <= want
      requires r == was.blocks[Chosen(was, want)].addr + HEADER
      requires 0 <= rmem && rmem + n <= |memory.m.ram|
      modifies memory
      ensures Valid() && 0 <= r && r + n <= |memory.m.ram| == |old(memory.m).ram|
      ensures memory.m == Overwrite(old(memory.m), r, old(memory.m).ram[rmem..rmem + n])
      ensures forall j :: 0 <= j < |heaps| && j != g ==> KeepsPayload(old(memory.m).ram, memory.m.ram, heaps[j].v.blocks)
      ensures KeepsPayload(old(memory.m).ram, memory.m.ram, was.blocks)
    {
      hide HeapSpec.Valid, Holds, Placed, SameOutside, KeepsPayload, SameBytes, Separate, Overwrite, Refuses, HeapSpec.Alloc, Chosen;
      ghost var h, bytes := heaps[g], memory.m.ram[rmem..rmem + n];
      FillHolds(memory.m, h.id, h.sentinel, was, h.start, h.End(), want, r, bytes);
      FillKeeps(memory.m, was, h.start, h.End(), want, r, bytes);
      StillPlaced(memory.m, Overwrite(memory.m, r, bytes), h.start, h.End(), h.sentinel);
      memory.Copy(r, rmem, n);
      Others(g);
    }

    /** Copying and freeing, after heap g has served the request for block i of heap k; vs were the heaps before. */
    method MoveAcross(rmem: int, r: int, newsize: nat, ghost k: nat, ghost i: nat, ghost g: nat, ghost vs: seq<View>, ghost ram: seq<byte>)
      requires Valid() && k < |heaps| && g < |heaps| && g != k && InUse(heaps[k].v, i, rmem) && |vs| == |heaps|
      requires HeapSpec.Valid(vs[g], heaps[g].start, heaps[g].End()) && Named(vs[g].blocks, vs[g].free) && !Refuses(vs[g], Rounded(newsize))
      requires Views() == vs[g := HeapSpec.Alloc(vs[g], Rounded(newsize))] && r == vs[g].blocks[Chosen(vs[g], Rounded(newsize))].addr + HEADER
      requires Rounded(newsize) > heaps[k].v.blocks[i].size && KeepsAll(ram, memory.m.ram, vs)
      modifies memory, heaps
      ensures Valid() && Views() == vs[g := HeapSpec.Alloc(vs[g], Rounded(newsize))][k := FreeAt(vs[k], i)]
      ensures i < |vs[k].blocks| && Carried(ram, memory.m.ram, rmem, r, Min(vs[k].blocks[i].size, newsize))
      ensures KeepsAllBut(ram, memory.m.ram, vs, k, i)
    {
      hide HeapSpec.Valid, Holds, Placed, SameOutside, KeepsPayload, SameBytes, Separate, Overwrite, Refuses, HeapSpec.Alloc, Chosen,
        KeepsAll, KeepsAllBut, Carried, Named, Find, HasBlock, FreeAt, Rounded;
      ghost var h, a := heaps[k], memory.m;
      SizeReads(a, h.id, h.sentinel, h.v, h.start, h.End(), i, rmem);
      PointsAt(h.v, h.start, h.End(), i, rmem);
      KeepsButOne(ram, a.ram, vs, k, i);
      var header := rmem - HEADER;
      var oldsize := memory.m.next[header] - header - HEADER;
      var n := if newsize > oldsize then oldsize else newsize;
      CopyAcross(rmem, r, n, g, vs[g], Rounded(newsize));
      AcrossCarries(ram, a, memory.m, vs, k, i, rmem, r, n);
      AcrossKeeps(ram, a.ram, memory.m.ram, vs, heaps, g, k, i);
      assert h.Owned(rmem);
      Free(rmem, k);
    }

    /** The part of rt_realloc that falls over to another heap g after heap k has refused. */
    method FallOver(rmem: int, newsize: nat, ghost k: nat, ghost i: nat) returns (r: int, ghost g: nat)
      requires Valid() && k < |heaps| && InUse(heaps[k].v, i, rmem) && rmem != NULL
      requires Rounded(newsize) > heaps[k].v.blocks[i].size && newsize > 0 && AllNamed(Views()) && Refuses(heaps[k].v, Rounded(newsize))
      modifies memory, heaps
      ensures Valid() && AllNamed(old(Views()))
      ensures var vs, want := old(Views()), Rounded(newsize);
        && (r == NULL <==> AllRefuse(vs, want))
        && (r == NULL ==> Views() == vs && memory.m == old(memory.m))
        && (r != NULL ==> (Serves(vs, main, g, want) && g != k
              && Views() == vs[g := HeapSpec.Alloc(vs[g], want)][k := FreeAt(vs[k], i)]
              && r == vs[g].blocks[Chosen(vs[g], want)].addr + HEADER
              && Carried(old(memory.m.ram), memory.m.ram, rmem, r, Min(vs[k].blocks[i].size, newsize))))
        && KeepsAllBut(old(memory.m.ram), memory.m.ram, vs, k, i)
    {
      hide HeapSpec.Valid, Holds, Placed, SameOutside, KeepsPayload, SameBytes, Separate, Refuses, HeapSpec.Alloc, Chosen,
        KeepsAll, KeepsAllBut, Carried, Named, FreeAt, Rounded, Registered;
      ghost var m, vs := memory.m, Views();
      AllHeapsValid();
      r, g := Malloc(newsize);
      if r != NULL {
        MoveAcross(rmem, r, newsize, k, i, g, vs, m.ram);
      } else {
        KeepsButOne(m.ram, memory.m.ram, vs, k, i);
      }
    }

    lemma AllHeapsValid()
      requires Valid()
      ensures forall j :: 0 <= j < |heaps| ==> HeapSpec.Valid(heaps[j].v, heaps[j].start, heaps[j].End())
    {
    }

    /** rt_realloc; rmem points to block i of heap k, the result is in heap g. */
    method Realloc(rmem: int, newsize: nat, ghost k: nat, ghost i: nat) returns (r: int, ghost g: nat)
      requires Valid() && (rmem == NULL || (k < |heaps| && InUse(heaps[k].v, i, rmem)))
      requires rmem != NULL && newsize > 0 ==> GrowthDecides(heaps[k].v, i, Rounded(newsize))
      modifies memory, heaps
      ensures Valid() && AllNamed(old(Views()))
      ensures rmem == NULL ==> Allocated(old(Views()), Views(), main, g, Rounded(newsize), r)
                               && KeepsAll(old(memory.m.ram), memory.m.ram, old(Views())) && (r == NULL ==> memory.m == old(memory.m))
      ensures rmem != NULL && newsize == 0 ==>
        r == NULL && Views() == old(Views())[k := FreeAt(old(Views())[k], i)] && memory.m.ram == old(memory.m.ram)
      ensures rmem != NULL && newsize > 0 ==> Reallocated(old(Views()), Views(), main, k, i, g, Rounded(newsize), r)
      ensures rmem != NULL && newsize > 0 ==>
        var vs := old(Views());
        && (r == NULL ==> memory.m == old(memory.m))
        && (r != NULL && g == k ==> Carried(old(memory.m.ram), memory.m.ram, rmem, r, Remaining(vs[k].blocks[i].size, Rounded(newsize))))
        && (r != NULL && g != k ==> Carried(old(memory.m.ram), memory.m.ram, rmem, r, Min(vs[k].blocks[i].size, newsize)))
        && KeepsAllBut(old(memory.m.ram), memory.m.ram, vs, k, i)
    {
      hide HeapSpec.Valid, Holds, Placed, SameOutside, KeepsPayload, SameBytes, Separate, Overwrite, Refuses, HeapSpec.Alloc, Chosen,
        KeepsAll, KeepsAllBut, Carried, Named, Find, HasBlock, FreeAt, HeapSpec.Realloc, GrowsInPlace, Rounded, Landing;
      NamedViews();
      g := k;
      if rmem == NULL {
        r, g := Malloc(newsize);
        return;
      }
      assert heaps[k].Owned(rmem);
      PointsAt(heaps[k].v, heaps[k].start, heaps[k].End(), i, rmem);
      if newsize == 0 {
        Free(rmem, k);
        return NULL, k;
      }
      ghost var vs := Views();
      RoundedTwice(newsize);
      r := ReallocHere(rmem, newsize, k, i);
      if r == NULL {
        SizePositive(vs[k], heaps[k].start, heaps[k].End(), i);
        r, g := FallOver(rmem, newsize, k, i);
      }
    }

    lemma NamedViews()
      requires Valid()
      ensures AllNamed(Views())
    {
    }
  }

  ghost predicate AllNamed(vs: seq<View>) {
    forall i :: 0 <= i < |vs| ==> Named(vs[i].blocks, vs[i].free)
  }

  /** The heap that a request goes to: the default heap, or else the first other one in list order that does not refuse. */
  ghost predicate Serves(vs: seq<View>, main: nat, k: nat, want: int)
    requires AllNamed(vs) && main < |vs|
  {
    && k < |vs| && !Refuses(vs[k], want)
    && (k != main ==> Refuses(vs[main], want) && forall j :: 0 <= j < k ==> Refuses(vs[j], want))
  }

  ghost predicate AllRefuse(vs: seq<View>, want: int)
    requires AllNamed(vs)
  {
    forall j :: 0 <= j < |vs| ==> Refuses(vs[j], want)
  }

  /** The outcome r of asking the heaps for want bytes: nothing at all, or one block of heap g. */
  ghost predicate Allocated(vs: seq<View>, vs': seq<View>, main: nat, g: nat, want: int, r: int)
    requires AllNamed(vs) && main < |vs|
  {
    && (r == NULL <==> AllRefuse(vs, want))
    && (r == NULL ==> vs' == vs)
    && (r != NULL ==> (Serves(vs, main, g, want) && vs' == vs[g := HeapSpec.Alloc(vs[g], want)]
                       && r == vs[g].blocks[Chosen(vs[g], want)].addr + HEADER))
  }

  /** The outcome r of reallocating block i of heap k: in its own heap, or else moved to heap g, or else nothing. */
  ghost predicate Reallocated(vs: seq<View>, vs': seq<View>, main: nat, k: nat, i: nat, g: nat, want: int, r: int)
    requires AllNamed(vs) && main < |vs| && k < |vs| && i + 1 < |vs[k].blocks|
  {
    && (r == NULL <==> Stuck(vs[k], i, want) && AllRefuse(vs, want))
    && (r == NULL ==> vs' == vs)
    && (r != NULL && !Stuck(vs[k], i, want) ==> (g == k && r == Landing(vs[k], i, want) + HEADER
                                                 && vs' == vs[k := HeapSpec.Realloc(vs[k], i, want)]))
    && (r != NULL && Stuck(vs[k], i, want) ==> (g != k && Serves(vs, main, g, want)
                                && r == vs[g].blocks[Chosen(vs[g], want)].addr + HEADER
                                && vs' == vs[g := HeapSpec.Alloc(vs[g], want)][k := FreeAt(vs[k], i)]))
  }

  /** The same, but for block i of heap k. */
  ghost predicate KeepsAllBut(ram: seq<byte>, ram': seq<byte>, vs: seq<View>, k: nat, i: nat)
    requires k < |vs| && i < |vs[k].blocks|
  {
    && (forall j :: 0 <= j < |vs| && j != k ==> KeepsPayload(ram, ram', vs[j].blocks))
    && KeepsOthers(ram, ram', vs[k].blocks, i, 0)
  }

  /** Every payload byte that was in use in any heap is what it was. */
  ghost predicate KeepsAll(ram: seq<byte>, ram': seq<byte>, vs: seq<View>) {
    forall j :: 0 <= j < |vs| ==> KeepsPayload(ram, ram', vs[j].blocks)
  }

  lemma HeapKept(m: Mem, m': Mem, v: View, start: int, end: int)
    requires HeapSpec.Valid(v, start, end) && KeepsHeap(m, m', v) && |m.ram| == |m'.ram|
    ensures KeepsPayload(m.ram, m'.ram, v.blocks)
  {
  }

  /** The payload bytes of all blocks of a partition survive. */
  ghost predicate KeepsHeap(m: Mem, m': Mem, v: View) {
    forall i :: 0 <= i < |v.blocks| - 1 ==> SameBytes(m.ram, m'.ram, v.blocks[i].addr + HEADER, v.blocks[i].size)
  }

  lemma FillKeeps(a: Mem, was: View, start: int, end: int, want: nat, r: int, bytes: seq<byte>)
    requires HeapSpec.Valid(was, start, end) && HeapSpec.Valid(HeapSpec.Alloc(was, want), start, end) && !Refuses(was, want)
    requires r == was.blocks[Chosen(was, want)].addr + HEADER && |bytes| <= want && 0 <= r && r + |bytes| <= |a.ram|
    ensures KeepsPayload(a.ram, Overwrite(a, r, bytes).ram, was.blocks)
  {
    forall j | 0 <= j < |was.blocks| && was.blocks[j].used
      ensures SameBytes(a.ram, Overwrite(a, r, bytes).ram, was.blocks[j].addr + HEADER, was.blocks[j].size)
    {
      CopyKeeps(a, Overwrite(a, r, bytes), was, start, end, want, j, r, bytes);
    }
  }

  lemma StillPlaced(m: Mem, m': Mem, start: int, end: int, sentinel: int)
    requires Placed(m, start, end, sentinel) && |m.ram| == |m'.ram|
    ensures Placed(m', start, end, sentinel)
  {
  }

  /** What the copy reads of the old block. */
  lemma SizeReads(m: Mem, id: int, sentinel: int, v: View, start: int, end: int, i: nat, rmem: int)
    requires HeapSpec.Valid(v, start, end) && Holds(m, id, sentinel, v) && Placed(m, start, end, sentinel) && InUse(v, i, rmem)
    ensures var h := rmem - HEADER; h in m.next && m.next[h] - h - HEADER == v.blocks[i].size >= 0
    ensures 0 <= rmem && rmem + v.blocks[i].size <= |m.ram| && rmem != NULL
  {
    ReadsBlock(m, id, sentinel, v, start, end, i);
    OwnBlock(v, start, end, i);
  }

  lemma KeepsButOne(ram: seq<byte>, ram': seq<byte>, vs: seq<View>, k: nat, i: nat)
    requires KeepsAll(ram, ram', vs) && k < |vs| && i < |vs[k].blocks| && vs[k].blocks[i].used
    ensures KeepsAllBut(ram, ram', vs, k, i)
    ensures SameBytes(ram, ram', vs[k].blocks[i].addr + HEADER, vs[k].blocks[i].size)
  {
    PayloadKeeps(ram, ram', vs[k].blocks, i);
  }

  lemma AcrossCarries(ram: seq<byte>, a: Mem, b: Mem, vs: seq<View>, k: nat, i: nat, rmem: int, r: int, n: nat)
    requires k < |vs| && i < |vs[k].blocks| && rmem == vs[k].blocks[i].addr + HEADER && n <= vs[k].blocks[i].size
    requires SameBytes(ram, a.ram, rmem, vs[k].blocks[i].size)
    requires 0 <= rmem && rmem + n <= |a.ram| && 0 <= r && r + n <= |a.ram|
    requires b == Overwrite(a, r, a.ram[rmem..rmem + n])
    ensures Carried(ram, b.ram, rmem, r, n)
  {
    assert b.ram[r..r + n] == a.ram[rmem..rmem + n];
    assert a.ram[rmem..rmem + n] == ram[rmem..rmem + n];
  }

  lemma KeepsTrans(ram: seq<byte>, ram1: seq<byte>, ram2: seq<byte>, bs: seq<Block>)
    requires KeepsPayload(ram, ram1, bs) && KeepsPayload(ram1, ram2, bs)
    ensures KeepsPayload(ram, ram2, bs)
  {
    forall i | 0 <= i < |bs| && bs[i].used
      ensures SameBytes(ram, ram2, bs[i].addr + HEADER, bs[i].size)
    {
      assert SameBytes(ram, ram1, bs[i].addr + HEADER, bs[i].size) && SameBytes(ram1, ram2, bs[i].addr + HEADER, bs[i].size);
    }
  }

  lemma AcrossKeeps(ram: seq<byte>, ram1: seq<byte>, ram2: seq<byte>, vs: seq<View>, heaps: seq<MemHeap>, g: nat, k: nat, i: nat)
    requires |heaps| == |vs| && g < |vs| && k < |vs| && g != k && i < |vs[k].blocks| && vs[k].blocks[i].used
    requires KeepsAll(ram, ram1, vs)
    requires forall j :: 0 <= j < |vs| && j != g ==> heaps[j].v == vs[j] && KeepsPayload(ram1, ram2, heaps[j].v.blocks)
    requires KeepsPayload(ram1, ram2, vs[g].blocks)
    ensures KeepsAllBut(ram, ram2, vs, k, i)
  {
    forall j | 0 <= j < |vs|
      ensures KeepsPayload(ram, ram2, vs[j].blocks)
    {
      if j != g { assert heaps[j].v == vs[j]; }
      KeepsTrans(ram, ram1, ram2, vs[j].blocks);
    }
    PayloadKeeps(ram, ram2, vs[k].blocks, i);
  }

  lemma SizePositive(v: View, start: int, end: int, i: nat)
    requires HeapSpec.Valid(v, start, end) && i < |v.blocks|
    ensures v.blocks[i].size >= 0
  {
  }

  /** A reallocation in the heap of the block leaves it, or takes along, the first min(old, new) payload bytes, except when the new
      size is rounded to MINIALLOC bytes and the block is large enough to be cut. */
  lemma KeptExactly(v: View, start: int, end: int, i: nat, newsize: nat)
    requires HeapSpec.Valid(v, start, end) && i < |v.blocks| - 1 && v.blocks[i].used && newsize < SPAN
    ensures var size, want := v.blocks[i].size, Rounded(newsize);
      && (Remaining(size, want) >= Min(size, newsize) <==> newsize <= SPAN - WORD || size <= HEADER + 2 * MINIALLOC)
      && (newsize > SPAN - WORD && size > HEADER + 2 * MINIALLOC ==>
          && HeapSpec.Realloc(v, i, want) == ResizeAt(v, i, MINIALLOC)
          && i < |ResizeAt(v, i, MINIALLOC).blocks| && ResizeAt(v, i, MINIALLOC).blocks[i] == Block(v.blocks[i].addr, MINIALLOC, true))
      && (newsize > SPAN - WORD && MINIALLOC <= size <= HEADER + 2 * MINIALLOC ==> HeapSpec.Realloc(v, i, want) == v)
  {
    RoundedTwice(newsize);
    ResizedIndex(v, i, MINIALLOC);
    hide FreeAt, Alloc, ResizeAt, Splice;
  }

  /** A witness: a block of 100 bytes reallocated to 2^32 - 1 is cut to twelve. */
  lemma KeptFew()
    ensures var v := View([Block(4096, 100, true), Block(4220, 0, true)], []);
      && HeapSpec.Valid(v, 4096, 4220)
      && HeapSpec.Realloc(v, 0, Rounded(SPAN - 1)) == View([Block(4096, 12, true), Block(4132, 64, false), Block(4220, 0, true)], [4132])
  {
  }

  lemma OnlyBlock(v: View, start: int, end: int, i: nat, ptr: int)
    requires HeapSpec.Valid(v, start, end) && InUse(v, i, ptr)
    ensures forall j :: InUse(v, j, ptr) ==> j == i
  {
    forall j | InUse(v, j, ptr)
      ensures j == i
    {
      SameAddress(v.blocks, start, end, i, j);
    }
  }
}
