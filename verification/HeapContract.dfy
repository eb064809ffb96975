// What rt_malloc and rt_free promise, whichever of memheap.c, mem.c and slab.c is built:
// one contract on the set of live payloads, and the three allocators measured by it.
module HeapContract {
  import opened Seqs
  import HeapSpec
  import HeapLaws
  import HeapTheorems
  import SmallSpec
  import SmallTheorems
  import SlabZones
  import SlabLaws
  import SlabHeap

  /** The bytes [at, at + len) belong to the caller. */
  datatype Payload = Payload(at: int, len: int)

  type Owned = iset<Payload>

  ghost predicate Apart(p: Payload, q: Payload) {
    p.at + p.len <= q.at || q.at + q.len <= p.at
  }

  /** No two payloads overlap. */
  ghost predicate Disjoint(live: Owned) {
    forall p, q :: p in live && q in live && p != q ==> Apart(p, q)
  }

  /** A successful allocation: one payload of at least size bytes, clear of every other, and nothing else changes. */
  ghost predicate Allocates(live: Owned, live': Owned, p: Payload, size: int) {
    && p.len >= size && p !in live && (forall q :: q in live ==> Apart(p, q))
    && live' == live + iset{p}
  }

  ghost predicate Frees(live: Owned, live': Owned, p: Payload) {
    p in live && live' == live - iset{p}
  }

  datatype Call = Malloc(p: Payload, size: int) | Free(p: Payload)

  ghost predicate Meets(live: Owned, live': Owned, c: Call) {
    match c
    case Malloc(p, size) => Allocates(live, live', p, size)
    case Free(p) => Frees(live, live', p)
  }

  /** states[i + 1] is what call i makes of states[i]. */
  ghost predicate Honours(states: seq<Owned>, calls: seq<Call>) {
    && |states| == |calls| + 1
    && forall i {:trigger calls[i]} :: 0 <= i < |calls| ==> Meets(states[i], states[i + 1], calls[i])
  }

  /** An allocator that meets the contract call by call never lets two live payloads overlap. */
  lemma {:induction false} NeverOverlap(states: seq<Owned>, calls: seq<Call>, i: nat)
    requires Honours(states, calls) && Disjoint(states[0]) && i <= |calls|
    ensures Disjoint(states[i])
  {
    if i > 0 {
      NeverOverlap(states, calls, i - 1);
      assert Meets(states[i - 1], states[i], calls[i - 1]);
    }
  }

  // ---- memheap.c

  ghost function MemHeapLive(v: HeapSpec.View): Owned {
    iset p: Payload | OfMemHeap(v, p)
  }

  ghost predicate OfMemHeap(v: HeapSpec.View, p: Payload) {
    exists i :: InMemHeap(v, i, p)
  }

  ghost predicate InMemHeap(v: HeapSpec.View, i: int, p: Payload) {
    0 <= i < |v.blocks| - 1 && v.blocks[i].used && p == Payload(v.blocks[i].addr + HeapSpec.HEADER, v.blocks[i].size)
  }

  lemma MemHeapInSet(v: HeapSpec.View, start: int, end: int, b: HeapSpec.Block)
    requires HeapSpec.Valid(v, start, end) && b != HeapSpec.Block(end, 0, true) && b.used
    ensures b in v.blocks <==> Payload(b.addr + HeapSpec.HEADER, b.size) in MemHeapLive(v)
  {
    var p := Payload(b.addr + HeapSpec.HEADER, b.size);
    if b in v.blocks {
      var i :| 0 <= i < |v.blocks| && v.blocks[i] == b;
      assert InMemHeap(v, i, p);
    }
    if i :| InMemHeap(v, i, p) {
      assert v.blocks[i] == b;
    }
  }

  lemma MemHeapDisjoint(v: HeapSpec.View, start: int, end: int)
    requires HeapSpec.Valid(v, start, end)
    ensures Disjoint(MemHeapLive(v))
  {
    forall p, q | p in MemHeapLive(v) && q in MemHeapLive(v) && p != q
      ensures Apart(p, q)
    {
      var i :| InMemHeap(v, i, p);
      var j :| InMemHeap(v, j, q);
      if i < j { HeapSpec.Ordered(v.blocks, start, end, i, j); } else { HeapSpec.Ordered(v.blocks, start, end, j, i); }
    }
  }

  /** rt_memheap_alloc meets the contract. */
  lemma MemHeapAllocates(v: HeapSpec.View, start: int, end: int, want: nat) returns (p: Payload)
    requires HeapSpec.Valid(v, start, end) && HeapSpec.Named(v.blocks, v.free) && !HeapSpec.Refuses(v, want)
    ensures p.at == v.blocks[HeapSpec.Chosen(v, want)].addr + HeapSpec.HEADER
    ensures Allocates(MemHeapLive(v), MemHeapLive(HeapSpec.Alloc(v, want)), p, want)
  {
    hide HeapSpec.Valid, HeapSpec.AllocAt;
    var c := HeapSpec.Chosen(v, want);
    var w := HeapSpec.Alloc(v, want);
    HeapLaws.ChosenFits(v, start, end, want);
    HeapLaws.AllocKeepsValid(v, start, end, c, want);
    HeapTheorems.LiveAlloc(v, start, end, c, want);
    HeapLaws.AllocIndex(v, c, want);
    var b := w.blocks[c];
    p := Payload(b.addr + HeapSpec.HEADER, b.size);
    assert InMemHeap(w, c, p);
    BelowTailer(w, start, end, c);
    MemHeapGains(v, w, start, end, b, HeapSpec.Carve(v.blocks[c], want)[0]);
    MemHeapNew(v, w, start, end, p);
  }

  lemma BelowTailer(v: HeapSpec.View, start: int, end: int, i: nat)
    requires HeapSpec.Valid(v, start, end) && i < |v.blocks| - 1
    ensures v.blocks[i].addr < end
  {
    HeapSpec.Ordered(v.blocks, start, end, i, |v.blocks| - 1);
  }

  lemma MemHeapNew(v: HeapSpec.View, w: HeapSpec.View, start: int, end: int, p: Payload)
    requires HeapSpec.Valid(w, start, end) && p in MemHeapLive(w) && p !in MemHeapLive(v) && MemHeapLive(v) <= MemHeapLive(w)
    ensures forall q :: q in MemHeapLive(v) ==> Apart(p, q)
  {
    MemHeapDisjoint(w, start, end);
  }

  /** One more block in use is one more payload. */
  lemma MemHeapGains(v: HeapSpec.View, w: HeapSpec.View, start: int, end: int, b: HeapSpec.Block, b': HeapSpec.Block)
    requires HeapSpec.Valid(v, start, end) && HeapSpec.Valid(w, start, end) && b == b' && b.used && b.addr < end
    requires HeapSpec.Live(w) == HeapSpec.Live(v) + {b} && b !in HeapSpec.Live(v)
    ensures MemHeapLive(w) == MemHeapLive(v) + iset{Payload(b.addr + HeapSpec.HEADER, b.size)}
    ensures Payload(b.addr + HeapSpec.HEADER, b.size) !in MemHeapLive(v)
  {
    forall x: Payload
      ensures x in MemHeapLive(w) <==> x in MemHeapLive(v) || x == Payload(b.addr + HeapSpec.HEADER, b.size)
      ensures x == Payload(b.addr + HeapSpec.HEADER, b.size) ==> x !in MemHeapLive(v)
    {
      var y := HeapSpec.Block(x.at - HeapSpec.HEADER, x.len, true);
      if y == HeapSpec.Block(end, 0, true) {
        TailerIsNoPayload(v, start, end, x);
        TailerIsNoPayload(w, start, end, x);
      } else {
        MemHeapInSet(v, start, end, y);
        MemHeapInSet(w, start, end, y);
        assert y in w.blocks <==> y in HeapSpec.Live(w);
        assert y in v.blocks <==> y in HeapSpec.Live(v);
      }
    }
  }

  lemma TailerIsNoPayload(v: HeapSpec.View, start: int, end: int, x: Payload)
    requires HeapSpec.Valid(v, start, end) && x == Payload(end + HeapSpec.HEADER, 0)
    ensures x !in MemHeapLive(v)
  {
    if i :| InMemHeap(v, i, x) {
      HeapSpec.SameAddress(v.blocks, start, end, i, |v.blocks| - 1);
    }
  }

  /** rt_memheap_free meets the contract. */
  lemma MemHeapFrees(v: HeapSpec.View, start: int, end: int, i: nat)
    requires HeapSpec.Valid(v, start, end) && i < |v.blocks| - 1 && v.blocks[i].used
    ensures Frees(MemHeapLive(v), MemHeapLive(HeapSpec.FreeAt(v, i)), Payload(v.blocks[i].addr + HeapSpec.HEADER, v.blocks[i].size))
  {
    hide HeapSpec.FreeAt;
    var b, w := v.blocks[i], HeapSpec.FreeAt(v, i);
    HeapLaws.FreeKeepsValid(v, start, end, i);
    HeapTheorems.LiveFree(v, start, end, i);
    HeapSpec.Ordered(v.blocks, start, end, i, |v.blocks| - 1);
    assert b in HeapSpec.Live(v);
    assert HeapSpec.Live(v) == HeapSpec.Live(w) + {b};
    MemHeapGains(w, v, start, end, b, b);
  }

  // ---- mem.c

  function SmallPayload(b: SmallSpec.Block): Payload {
    Payload(b.start + SmallSpec.HEADER, b.Room())
  }

  ghost predicate OfSmall(bs: seq<SmallSpec.Block>, p: Payload) {
    exists b :: SmallTheorems.Live(bs, b) && p == SmallPayload(b)
  }

  ghost function SmallLive(bs: seq<SmallSpec.Block>): Owned {
    iset p: Payload | OfSmall(bs, p)
  }

  lemma SamePayload(b: SmallSpec.Block, c: SmallSpec.Block)
    requires b.used && c.used && SmallPayload(b) == SmallPayload(c)
    ensures b == c
  {
  }

  /** rt_malloc of mem.c meets the contract. */
  lemma SmallAllocates(bs: seq<SmallSpec.Block>, end: nat, i: nat, size: nat)
    requires SmallSpec.Tiled(bs, end) && i < |bs| && !bs[i].used && bs[i].Room() >= size
    ensures i < |SmallSpec.TakeAt(bs, i, size)|
    ensures Allocates(SmallLive(bs), SmallLive(SmallSpec.TakeAt(bs, i, size)), SmallPayload(SmallSpec.TakeAt(bs, i, size)[i]), size)
  {
    hide SmallSpec.Tiled, SmallTheorems.Live;
    SmallTheorems.LiveTake(bs, end, i, size, bs[i]);
    var r := SmallSpec.TakeAt(bs, i, size);
    var p := SmallPayload(r[i]);
    hide SmallSpec.TakeAt;
    forall q: Payload
      ensures q in SmallLive(r) <==> q in SmallLive(bs) || q == p
      ensures q in SmallLive(bs) ==> Apart(p, q) && q != p
    {
      if b :| SmallTheorems.Live(bs, b) && q == SmallPayload(b) {
        SmallTheorems.LiveTake(bs, end, i, size, b);
        LiveIsBlock(bs, end, b);
        SmallTheorems.LiveTake(bs, end, i, size, r[i]);
        LiveIsBlock(r, end, r[i]);
      }
      if b :| SmallTheorems.Live(r, b) && q == SmallPayload(b) {
        SmallTheorems.LiveTake(bs, end, i, size, b);
      }
      SmallTheorems.LiveTake(bs, end, i, size, r[i]);
    }
  }

  lemma LiveIsBlock(bs: seq<SmallSpec.Block>, end: nat, b: SmallSpec.Block)
    requires SmallTheorems.Live(bs, b)
    ensures b.used && (SmallSpec.Tiled(bs, end) ==> b.start + SmallSpec.HEADER <= b.end)
  {
    var k :| 0 <= k < |bs| && bs[k] == b;
    if SmallSpec.Tiled(bs, end) { SmallTheorems.ShapeAt(bs, end, k); }
  }

  /** rt_free of mem.c meets the contract. */
  lemma SmallFrees(bs: seq<SmallSpec.Block>, end: nat, i: nat)
    requires SmallSpec.Tiled(bs, end) && i < |bs| && bs[i].used
    ensures Frees(SmallLive(bs), SmallLive(SmallSpec.FreeAt(bs, i)), SmallPayload(bs[i]))
  {
    hide SmallSpec.Tiled, SmallSpec.FreeAt;
    assert SmallTheorems.Live(bs, bs[i]);
    var r := SmallSpec.FreeAt(bs, i);
    forall q: Payload
      ensures q in SmallLive(r) <==> q in SmallLive(bs) && q != SmallPayload(bs[i])
    {
      if b :| SmallTheorems.Live(bs, b) && q == SmallPayload(b) {
        SmallTheorems.LiveFree(bs, end, i, b);
      }
      if b :| SmallTheorems.Live(r, b) && q == SmallPayload(b) {
        SmallTheorems.LiveFree(bs, end, i, b);
        if q == SmallPayload(bs[i]) { SamePayload(b, bs[i]); }
      }
    }
  }

  // ---- slab.c

  ghost predicate OfSlab(s: SlabZones.State, p: Payload) {
    p.at >= 0 && p.len >= 0 && SlabLaws.Live(s, p.at, p.len)
  }

  ghost function SlabLive(s: SlabZones.State): Owned {
    iset p: Payload | OfSlab(s, p)
  }

  lemma SlabAdds(s: SlabZones.State, s': SlabZones.State, zp: nat, max: nat, a: nat, len: nat)
    requires SlabLaws.Inv(s', zp, max) && SlabLaws.Adds(s, s', a, len)
    ensures Allocates(SlabLive(s), SlabLive(s'), Payload(a, len), len)
  {
    hide SlabLaws.Inv, SlabLaws.Live;
    var p := Payload(a, len);
    forall q: Payload
      ensures q in SlabLive(s') <==> q in SlabLive(s) || q == p
      ensures q in SlabLive(s) ==> Apart(p, q) && q != p
    {
      if q in SlabLive(s) {
        SlabLaws.LiveDisjoint(s', zp, max, a, len, q.at, q.len);
      }
    }
  }

  lemma SlabDrops(s: SlabZones.State, s': SlabZones.State, zp: nat, max: nat, a: nat, len: nat)
    requires SlabLaws.Inv(s, zp, max) && SlabLaws.Live(s, a, len) && SlabLaws.Drops(s, s', a)
    ensures Frees(SlabLive(s), SlabLive(s'), Payload(a, len))
  {
    hide SlabLaws.Inv, SlabLaws.Live;
    forall q: Payload
      ensures q in SlabLive(s') <==> q in SlabLive(s) && q != Payload(a, len)
    {
      if q in SlabLive(s) {
        SlabLaws.LiveDisjoint(s, zp, max, a, len, q.at, q.len);
      }
    }
  }

  /** The bytes that slab.c sets aside for a request of size bytes, zi being its class. */
  function SlabLength(size: nat, limit: nat, zi: nat): nat {
    if size >= limit then (size + SlabZones.PAGE - 1) / SlabZones.PAGE * SlabZones.PAGE else SlabZones.ChunkOf(zi)
  }

  lemma SlabRoom(size: nat, limit: nat, zi: nat)
    requires size < limit ==> SlabZones.ClassOf(size, zi)
    ensures SlabLength(size, limit, zi) >= size
  {
  }

  /** rt_malloc of slab.c meets the contract. */
  method SlabAllocates(h: SlabHeap.Heap, size: nat, ghost zi: nat) returns (r: Option<nat>)
    requires h.Valid() && (size < h.zoneLimit ==> SlabZones.ClassOf(size, zi))
    modifies h, h.pages, h.pages.next, h.pages.page
    ensures h.Valid()
    ensures r.None? ==> SlabLive(h.Model()) == old(SlabLive(h.Model()))
    ensures r.Some? ==>
      Allocates(old(SlabLive(h.Model())), SlabLive(h.Model()), Payload(r.value, SlabLength(size, h.zoneLimit, zi)), size)
  {
    hide SlabLaws.Inv, SlabLaws.Adds, SlabZones.ChunkOf, SlabLaws.Live;
    r := h.RtMalloc(size);
    if r.Some? {
      SlabRoom(size, h.zoneLimit, zi);
      SlabAdds(old(h.Model()), h.Model(), h.zonePages, SlabZones.RELEASE_THRESHOLD, r.value, SlabLength(size, h.zoneLimit, zi));
    }
  }

  /** rt_free of slab.c meets the contract. */
  method SlabFrees(h: SlabHeap.Heap, a: nat, ghost len: nat)
    requires h.Valid() && SlabLaws.Live(h.Model(), a, len)
    modifies h, h.pages, h.pages.next, h.pages.page
    ensures h.Valid() && Frees(old(SlabLive(h.Model())), SlabLive(h.Model()), Payload(a, len))
  {
    hide SlabLaws.Inv, SlabLaws.Drops, SlabLaws.Live;
    h.RtFree(a, len);
    SlabDrops(old(h.Model()), h.Model(), h.zonePages, SlabZones.RELEASE_THRESHOLD, a, len);
  }
}
