// The whole slab heap: what every step keeps, and what becomes of the live blocks.
module SlabLaws {
  import opened Seqs
  import opened Words
  import opened SlabPages
  import opened SlabZones

  /** Page p is the first of a zone, in use or cached. */
  ghost predicate IsZone(s: State, p: nat) {
    p in s.zones || p in s.cached
  }

  /** len pages from p on belong to a zone or to a large block. */
  ghost predicate Holds(s: State, zp: nat, p: nat, len: nat) {
    (IsZone(s, p) && len == zp) || (p in s.large && len == s.large[p])
  }

  ghost predicate Listed(s: State, zi: nat, p: nat) {
    p in s.zones && s.zones[p].index == zi && s.zones[p].nfree > 0
  }

  ghost predicate ZonesOk(s: State, zp: nat) {
    forall p :: p in s.zones ==> ZoneOk(s.zones[p], p, zp)
  }

  /** A list holds exactly the zones of its class that have a free chunk. */
  ghost predicate ListsOk(s: State) {
    && (forall zi: nat :: zi < ZONES ==> zi in s.lists && Distinct(s.lists[zi]))
    && (forall zi: nat, p: nat :: zi < ZONES && zi in s.lists ==> (p in s.lists[zi] <==> Listed(s, zi, p)))
  }

  ghost predicate CacheOk(s: State, max: nat) {
    Distinct(s.cached) && |s.cached| <= max && forall p :: p in s.cached ==> p !in s.zones
  }

  ghost predicate Says(usage: seq<Usage>, p: nat, off: nat) {
    p + off < |usage| ==> usage[p + off] == Small(off)
  }

  ghost predicate TableOk(s: State, zp: nat) {
    && (forall p: nat, off: nat :: IsZone(s, p) && off < zp ==> Says(s.usage, p, off))
    && (forall p :: p in s.large && p < |s.usage| ==> s.usage[p] == Large(s.large[p]))
  }

  ghost predicate PagesOk(s: State, zp: nat) {
    && Canonical(s.runs) && (forall i :: 0 <= i < |s.runs| ==> s.runs[i].End() <= |s.usage|)
    && (forall p :: p in s.large ==> !IsZone(s, p) && s.large[p] > 0)
    && (forall p: nat, len: nat :: Holds(s, zp, p, len) ==> p + len <= |s.usage| && NoneFree(s.runs, p, len))
    && (forall p: nat, l: nat, q: nat, m: nat :: Holds(s, zp, p, l) && Holds(s, zp, q, m) && p < q ==> p + l <= q)
  }

  ghost predicate Inv(s: State, zp: nat, max: nat) {
    zp > 0 && ZonesOk(s, zp) && ListsOk(s) && CacheOk(s, max) && TableOk(s, zp) && PagesOk(s, zp)
  }

  // ---- live blocks

  ghost predicate LiveSmall(s: State, p: nat, a: nat) {
    p in s.zones && LiveIn(s.zones[p], a)
  }

  /** The bytes [a, a + len) belong to the caller. */
  ghost predicate Live(s: State, a: nat, len: nat) {
    || (exists p :: LiveSmall(s, p, a) && len == s.zones[p].chunk)
    || (exists p :: p in s.large && a == p * PAGE && len == s.large[p] * PAGE)
  }

  lemma InPages(a: nat, p: nat, n: nat)
    requires p * PAGE <= a < (p + n) * PAGE
    ensures p <= a / PAGE < p + n
  {
  }

  /** The page table leads from any live pointer back to its zone, or to the length of its large block. */
  lemma TableFindsOwner(s: State, zp: nat, max: nat, p: nat, a: nat)
    requires Inv(s, zp, max)
    ensures LiveSmall(s, p, a) ==> a / PAGE < |s.usage| && p <= a / PAGE && s.usage[a / PAGE] == Small(a / PAGE - p)
    ensures p in s.large && a == p * PAGE ==> a / PAGE == p < |s.usage| && s.usage[p] == Large(s.large[p])
  {
    if LiveSmall(s, p, a) {
      LiveApart(s.zones[p], p, zp, a, a);
      ChunkPositive(s.zones[p].index);
      InPages(a, p, zp);
      assert IsZone(s, p) && Holds(s, zp, p, zp);
      assert Says(s.usage, p, a / PAGE - p);
    }
    if p in s.large && a == p * PAGE {
      assert Holds(s, zp, p, s.large[p]);
    }
  }

  /** The pages that hold a live block. */
  lemma LiveHome(s: State, zp: nat, max: nat, a: nat, len: nat) returns (p: nat, l: nat)
    requires Inv(s, zp, max) && Live(s, a, len)
    ensures Holds(s, zp, p, l) && p * PAGE <= a && a + len <= (p + l) * PAGE && len > 0
    ensures p in s.large ==> a == p * PAGE && len == s.large[p] * PAGE
    ensures p !in s.large ==> LiveSmall(s, p, a) && len == s.zones[p].chunk
  {
    if q :| LiveSmall(s, q, a) && len == s.zones[q].chunk {
      p, l := q, zp;
      assert IsZone(s, p);
      LiveApart(s.zones[p], p, zp, a, a);
      ChunkPositive(s.zones[p].index);
    } else {
      p :| p in s.large && a == p * PAGE && len == s.large[p] * PAGE;
      l := s.large[p];
      assert (p + l) * PAGE == p * PAGE + l * PAGE;
    }
  }

  /** Live blocks lie inside the heap and never overlap. */
  lemma LiveDisjoint(s: State, zp: nat, max: nat, a: nat, l: nat, b: nat, m: nat)
    requires Inv(s, zp, max) && Live(s, a, l) && Live(s, b, m)
    ensures a + l <= |s.usage| * PAGE
    ensures a == b ==> l == m
    ensures a != b ==> a + l <= b || b + m <= a
  {
    var p, n := LiveHome(s, zp, max, a, l);
    var q, k := LiveHome(s, zp, max, b, m);
    PagesBound(p + n, |s.usage|);
    if p < q { PagesBound(p + n, q); }
    if q < p { PagesBound(q + k, p); }
    if p == q && p !in s.large { LiveApart(s.zones[p], p, zp, a, b); }
  }

  lemma PagesBound(i: nat, j: nat)
    requires i <= j
    ensures i * PAGE <= j * PAGE
  {
  }

  // ---- pages that nobody holds

  /** The pages [p, p + len) are neither free nor part of a zone or a large block. */
  ghost predicate Spare(s: State, zp: nat, p: nat, len: nat) {
    && len > 0 && p + len <= |s.usage| && NoneFree(s.runs, p, len)
    && forall q: nat, m: nat :: Holds(s, zp, q, m) ==> q + m <= p || p + len <= q
  }

  ghost predicate Marked(s: State, zp: nat, p: nat) {
    forall off: nat :: off < zp ==> Says(s.usage, p, off)
  }

  lemma HeldLength(s: State, zp: nat, max: nat, p: nat, len: nat)
    requires Inv(s, zp, max) && Holds(s, zp, p, len)
    ensures len > 0 && p + len <= |s.usage|
  {
  }

  lemma SpareIsNew(s: State, zp: nat, max: nat, p: nat, len: nat)
    requires Inv(s, zp, max) && Spare(s, zp, p, len)
    ensures !IsZone(s, p) && p !in s.large
  {
    if IsZone(s, p) { assert Holds(s, zp, p, zp); }
    if p in s.large { assert Holds(s, zp, p, s.large[p]); }
  }

  /** rt_page_alloc hands out pages nobody holds. */
  lemma AllocSpares(s: State, zp: nat, max: nat, k: nat, len: nat)
    requires Inv(s, zp, max) && k < |s.runs| && 0 < len <= s.runs[k].n
    ensures Inv(s.(runs := AllocAt(s.runs, k, len)), zp, max)
    ensures Spare(s.(runs := AllocAt(s.runs, k, len)), zp, s.runs[k].at, len)
  {
    hide Canonical, In, ZonesOk, ListsOk, CacheOk, TableOk, AllocAt;
    var p := s.runs[k].at;
    var s' := s.(runs := AllocAt(s.runs, k, len));
    AllocTakes(s.runs, k, len, 0);
    AllocBounds(s.runs, k, len, |s.usage|);
    forall x: nat
      ensures In(s'.runs, x) <==> In(s.runs, x) && !(p <= x < p + len)
    {
      AllocTakes(s.runs, k, len, x);
    }
    SameLists(s, s', zp, max);
    forall q: nat, m: nat | Holds(s, zp, q, m)
      ensures q + m <= p || p + len <= q
    {
      HeldLength(s, zp, max, q, m);
      var x := if q < p then p else q;
      if x < q + m && x < p + len {
        assert Covers(s.runs[k], x);
        InRun(s.runs, k, x);
      }
    }
  }

  /** Zones, lists, cache and table do not look at the free pages. */
  lemma SameLists(s: State, s': State, zp: nat, max: nat)
    requires Inv(s, zp, max) && s' == s.(runs := s'.runs)
    ensures ZonesOk(s', zp) && ListsOk(s') && CacheOk(s', max) && TableOk(s', zp)
    ensures forall p: nat, len: nat :: Holds(s', zp, p, len) <==> Holds(s, zp, p, len)
  {
    assert forall p: nat :: IsZone(s', p) <==> IsZone(s, p);
  }

  /** Pages nobody holds can go back to rt_page_free. */
  lemma FreeSpare(s: State, zp: nat, max: nat, p: nat, len: nat)
    requires Inv(s, zp, max) && Spare(s, zp, p, len)
    ensures Inv(s.(runs := Free(s.runs, p, len)), zp, max)
  {
    hide Canonical, In, ZonesOk, ListsOk, CacheOk, TableOk, Free;
    var s' := s.(runs := Free(s.runs, p, len));
    FreeAdds(s.runs, p, len, 0);
    FreeBounds(s.runs, p, len, |s.usage|);
    SameLists(s, s', zp, max);
    forall x: nat
      ensures In(s'.runs, x) <==> In(s.runs, x) || p <= x < p + len
    {
      FreeAdds(s.runs, p, len, x);
    }
  }

  /** The page table entries of pages nobody holds may say anything. */
  lemma WriteSpare(s: State, zp: nat, max: nat, p: nat, len: nat, usage: seq<Usage>)
    requires Inv(s, zp, max) && Spare(s, zp, p, len) && |usage| == |s.usage|
    requires forall x :: 0 <= x < |usage| && !(p <= x < p + len) ==> usage[x] == s.usage[x]
    ensures Inv(s.(usage := usage), zp, max) && Spare(s.(usage := usage), zp, p, len)
  {
    hide Canonical, In, ZoneOk;
    var s' := s.(usage := usage);
    assert forall q: nat, m: nat :: Holds(s', zp, q, m) <==> Holds(s, zp, q, m);
    forall q: nat, off: nat | IsZone(s', q) && off < zp
      ensures Says(usage, q, off)
    {
      assert IsZone(s, q) && Holds(s, zp, q, zp) && Says(s.usage, q, off);
    }
    forall q | q in s'.large && q < |usage|
      ensures usage[q] == Large(s.large[q])
    {
      assert Holds(s, zp, q, s.large[q]);
    }
  }

  // ---- zones come and go

  function NewZone(p: nat, zp: nat, zi: nat): Zone
    requires zi < ZONES
  {
    ChunkPositive(zi);
    var size := ChunkOf(zi);
    var nmax := (zp * PAGE - FirstOffset(size)) / size;
    Zone(nmax - 1, nmax, p * PAGE + FirstOffset(size), 0, size, zi, [])
  }

  /** The address of a live chunk of power-of-two size is a multiple of that size exactly when the address of its zone is,
      and always when the size is at most a page. */
  lemma ChunksAligned(s: State, zp: nat, max: nat, heapStart: nat, p: nat, a: nat)
    requires Inv(s, zp, max) && heapStart % PAGE == 0 && LiveSmall(s, p, a) && PowerOfTwo(s.zones[p].chunk)
    ensures var size := s.zones[p].chunk;
      && size > 0 && ((heapStart + a) % size == 0 <==> (heapStart + p * PAGE) % size == 0)
      && (size <= PAGE ==> (heapStart + a) % size == 0)
  {
    hide PowerOfTwo, LiveIn, ListsOk, CacheOk, TableOk, PagesOk;
    var z := s.zones[p];
    assert ZoneOk(z, p, zp);
    ChunkAligned(z, p, zp, a);
    var zone, off := heapStart + p * PAGE, a - p * PAGE;
    AddMultiple(off, zone, z.chunk);
    if z.chunk <= PAGE {
      PageIsPower();
      PowerDivides(z.chunk, PAGE);
      var pages := heapStart / PAGE + p;
      assert zone == pages * PAGE;
      MultipleOfMultiple(pages, PAGE, z.chunk);
    }
  }

  lemma PageIsPower()
    ensures PowerOfTwo(PAGE)
  {
  }

  lemma MultipleOfMultiple(n: nat, a: nat, b: nat)
    requires b > 0 && a % b == 0
    ensures n * a % b == 0
  {
    assert n * a == n * (a / b) * b;
    Multiple(n * (a / b), b);
  }

  /** A witness: zones are aligned to pages only, so that chunks of two pages may lie across multiples of their size. */
  lemma LargeChunksMisaligned()
    ensures ChunkOf(63) == 8192 && PowerOfTwo(8192) && ZoneOk(NewZone(1, 8, 63), 1, 8) && LiveIn(NewZone(1, 8, 63), Slot(NewZone(1, 8, 63), 0))
    ensures (0x2000_0000 + Slot(NewZone(1, 8, 63), 0)) % 8192 == 4096
  {
    NewZoneOk(1, 8, 63);
  }

  /** A new zone has its first chunk handed out and room for at least one more. */
  lemma NewZoneOk(p: nat, zp: nat, zi: nat)
    requires zi < ZONES && ChunkOf(zi) * 4 <= zp * PAGE && 8 <= zp
    ensures var z := NewZone(p, zp, zi);
      && ZoneOk(z, p, zp) && z.nfree > 0 && z.index == zi && z.chunk == ChunkOf(zi)
      && (forall a :: LiveIn(z, a) <==> a == Slot(z, 0))
  {
    ChunkPositive(zi);
    var size := ChunkOf(zi);
    RoundUpBounds(ZONE_HEADER, size);
    RoundUpBounds(ZONE_HEADER, 8);
    var off := FirstOffset(size);
    assert off + 2 * size <= zp * PAGE;
    Capacity(zp * PAGE - off, size);
    var z := NewZone(p, zp, zi);
    assert z.base + z.nmax * z.chunk <= (p + zp) * PAGE;
    forall a
      ensures LiveIn(z, a) <==> a == Slot(z, 0)
    {
      if a == Slot(z, 0) { assert Carved(z, a); }
    }
  }

  lemma Capacity(room: nat, size: nat)
    requires size > 0 && room >= 2 * size
    ensures room / size >= 2 && room / size * size <= room
  {
    var d := room / size;
    assert room == d * size + room % size;
    if d < 2 {
      AtMostOnce(d, size);
    }
  }

  lemma AtMostOnce(d: nat, size: nat)
    requires d < 2
    ensures d * size <= size
  {
  }

  // ---- steps of rt_malloc

  /** A chunk from the zone at the head of list zi; a zone without free chunks leaves the list. */
  function Serve(s: State, zi: nat): State
    requires zi in s.lists && s.lists[zi] != [] && s.lists[zi][0] in s.zones
    requires var z := s.zones[s.lists[zi][0]]; z.uindex + 1 == z.nmax ==> z.freed != []
  {
    var p := s.lists[zi][0];
    var z := TakeChunk(s.zones[p]);
    s.(zones := s.zones[p := z], lists := if z.nfree == 0 then s.lists[zi := s.lists[zi][1..]] else s.lists)
  }

  /** A zone is set up on pages nobody holds, and its first chunk handed out. */
  function Open(s: State, zp: nat, p: nat, zi: nat): State
    requires zi < ZONES && zi in s.lists
  {
    s.(zones := s.zones[p := NewZone(p, zp, zi)], lists := s.lists[zi := [p] + s.lists[zi]])
  }

  function TakeLarge(s: State, p: nat, len: nat): State
    requires p < |s.usage|
  {
    s.(large := s.large[p := len], usage := s.usage[p := Large(len)])
  }

  // ---- steps of rt_free

  /** A chunk goes back to its zone, and the zone back on its list if it was exhausted. */
  function Give(s: State, p: nat, a: nat): State
    requires p in s.zones && s.zones[p].index in s.lists
  {
    var z := s.zones[p];
    s.(zones := s.zones[p := GiveChunk(z, a)],
       lists := if z.nfree == 0 then s.lists[z.index := [p] + s.lists[z.index]] else s.lists)
  }

  /** An empty zone leaves its list for the cache. */
  function Retire(s: State, p: nat): State
    requires p in s.zones && s.zones[p].index in s.lists
  {
    var zi := s.zones[p].index;
    s.(zones := s.zones - {p}, lists := s.lists[zi := Without(s.lists[zi], p)], cached := [p] + s.cached)
  }

  function Uncache(s: State): State
    requires s.cached != []
  {
    s.(cached := s.cached[1..])
  }

  function DropLarge(s: State, p: nat): State
    requires p < |s.usage|
  {
    s.(large := s.large - {p}, usage := s.usage[p := Large(0)])
  }

  /** A zone that comes to have chunks to give is the next to serve requests of its class; one that had some keeps its place. */
  lemma NextToServe(s: State, zp: nat, max: nat, p: nat, a: nat, q: nat, zi: nat)
    requires Inv(s, zp, max) && LiveSmall(s, p, a) && zi < ZONES
    ensures s.zones[p].index in s.lists && zi in s.lists
    ensures var l := Give(s, p, a).lists[s.zones[p].index];
      && (p in s.lists[s.zones[p].index] ==> l == s.lists[s.zones[p].index])
      && (p !in s.lists[s.zones[p].index] ==> l[0] == p && l[1..] == s.lists[s.zones[p].index])
    ensures var l := Open(s, zp, q, zi).lists[zi]; l != [] && l[0] == q && l[1..] == s.lists[zi]
  {
    hide ChunkOf, TableOk, PagesOk, NewZone;
    EmptyExactly(s.zones[p], p, zp);
    assert p in s.lists[s.zones[p].index] <==> Listed(s, s.zones[p].index, p);
  }

  // ---- one zone changes

  /** Zone p is rewritten in place and its list adjusted. */
  lemma RezoneKeepsInv(s: State, s': State, zp: nat, max: nat, p: nat, z: Zone)
    requires Inv(s, zp, max) && p in s.zones && ZoneOk(z, p, zp)
    requires s' == s.(zones := s.zones[p := z], lists := s'.lists) && ListsOk(s')
    ensures Inv(s', zp, max)
  {
    hide ZoneOk, Canonical, In, ListsOk, Says;
    assert forall q: nat :: IsZone(s', q) <==> IsZone(s, q);
    assert forall q: nat, m: nat :: Holds(s', zp, q, m) <==> Holds(s, zp, q, m);
  }

  lemma ListHead(s: State, zp: nat, max: nat, zi: nat)
    requires Inv(s, zp, max) && zi < ZONES && s.lists[zi] != []
    ensures zi in s.lists && Listed(s, zi, s.lists[zi][0])
  {
    assert s.lists[zi][0] in s.lists[zi];
  }

  lemma ServeKeepsInv(s: State, zp: nat, max: nat, zi: nat)
    requires Inv(s, zp, max) && zi < ZONES && zi in s.lists && s.lists[zi] != []
    ensures var p := s.lists[zi][0];
      && p in s.zones && s.zones[p].index == zi && (s.zones[p].uindex + 1 == s.zones[p].nmax ==> s.zones[p].freed != [])
      && Inv(Serve(s, zi), zp, max)
  {
    ListHead(s, zp, max, zi);
    var p := s.lists[zi][0];
    TakeKeepsZone(s.zones[p], p, zp);
    var s' := Serve(s, zi);
    TailMembers(s.lists[zi]);
    assert ListsOk(s') by {
      hide TakeChunk, ZoneOk;
      TakeFields(s.zones[p]);
    }
    RezoneKeepsInv(s, s', zp, max, p, s'.zones[p]);
  }

  lemma TakeFields(z: Zone)
    requires z.uindex + 1 == z.nmax ==> z.freed != []
    ensures TakeChunk(z).index == z.index && TakeChunk(z).chunk == z.chunk && TakeChunk(z).nfree == z.nfree - 1
  {
  }

  lemma GiveKeepsInv(s: State, zp: nat, max: nat, p: nat, a: nat)
    requires Inv(s, zp, max) && LiveSmall(s, p, a)
    ensures s.zones[p].index in s.lists && Inv(Give(s, p, a), zp, max)
  {
    var z := s.zones[p];
    GiveKeepsZone(z, p, zp, a);
    EmptyExactly(z, p, zp);
    var s' := Give(s, p, a);
    assert z.nfree >= 0;
    if z.nfree == 0 {
      assert !Listed(s, z.index, p);
      InsertMembers(s.lists[z.index], 0, p);
      assert InsertAt(s.lists[z.index], 0, p) == [p] + s.lists[z.index];
    }
    assert ListsOk(s') by {
      hide ZoneOk, LiveIn;
    }
    RezoneKeepsInv(s, s', zp, max, p, s'.zones[p]);
  }

  // ---- zones open and retire

  lemma OpenKeepsInv(s: State, zp: nat, max: nat, p: nat, zi: nat)
    requires Inv(s, zp, max) && Spare(s, zp, p, zp) && Marked(s, zp, p)
    requires zi < ZONES && zi in s.lists && ChunkOf(zi) * 4 <= zp * PAGE && 8 <= zp
    ensures Inv(Open(s, zp, p, zi), zp, max)
  {
    hide ZoneOk, Canonical, In, Says, NewZone, ChunkOf;
    NewZoneOk(p, zp, zi);
    SpareIsNew(s, zp, max, p, zp);
    var s' := Open(s, zp, p, zi);
    assert !Listed(s, zi, p);
    InsertMembers(s.lists[zi], 0, p);
    assert InsertAt(s.lists[zi], 0, p) == [p] + s.lists[zi];
    assert forall q: nat :: IsZone(s', q) <==> IsZone(s, q) || q == p;
    assert forall q: nat, m: nat :: Holds(s', zp, q, m) <==> Holds(s, zp, q, m) || (q == p && m == zp);
    OpenLists(s, zp, max, p, zi);
  }

  lemma OpenLists(s: State, zp: nat, max: nat, p: nat, zi: nat)
    requires Inv(s, zp, max) && p !in s.zones && zi < ZONES && zi in s.lists
    requires NewZone(p, zp, zi).nfree > 0 && NewZone(p, zp, zi).index == zi
    ensures ListsOk(Open(s, zp, p, zi))
  {
    hide ZoneOk, NewZone;
    assert !Listed(s, zi, p);
    InsertMembers(s.lists[zi], 0, p);
    assert InsertAt(s.lists[zi], 0, p) == [p] + s.lists[zi];
  }

  lemma RetireKeepsInv(s: State, zp: nat, max: nat, p: nat)
    requires Inv(s, zp, max) && p in s.zones && s.zones[p].index in s.lists
    ensures Inv(Retire(s, p), zp, max + 1)
  {
    hide ZoneOk, Canonical, In, Says;
    var s' := Retire(s, p);
    assert forall q: nat :: IsZone(s', q) <==> IsZone(s, q);
    assert forall q: nat, m: nat :: Holds(s', zp, q, m) <==> Holds(s, zp, q, m);
    InsertMembers(s.cached, 0, p);
    assert InsertAt(s.cached, 0, p) == [p] + s.cached;
    RetireLists(s, zp, max, p);
  }

  lemma RetireLists(s: State, zp: nat, max: nat, p: nat)
    requires Inv(s, zp, max) && p in s.zones && s.zones[p].index in s.lists
    ensures ListsOk(Retire(s, p))
  {
    hide ZoneOk;
    var zi := s.zones[p].index;
    assert zi < ZONES by { assert ZoneOk(s.zones[p], p, zp); ZoneIndexBound(s.zones[p], p, zp); }
    WithoutMembers(s.lists[zi], p);
    forall zj: nat, q: nat | zj < ZONES && zj != zi
      ensures q in s.lists[zj] ==> q != p
    {
      assert q in s.lists[zj] ==> Listed(s, zj, q);
    }
  }

  lemma ZoneIndexBound(z: Zone, p: nat, zp: nat)
    requires ZoneOk(z, p, zp)
    ensures z.index < ZONES
  {
  }

  lemma UncacheSpares(s: State, zp: nat, max: nat)
    requires Inv(s, zp, max) && s.cached != []
    ensures Inv(Uncache(s), zp, max - 1) && Spare(Uncache(s), zp, s.cached[0], zp) && Marked(Uncache(s), zp, s.cached[0])
  {
    hide ZoneOk, Canonical, In, Says;
    var s' := Uncache(s);
    var p := s.cached[0];
    assert p in s.cached;
    TailMembers(s.cached);
    assert forall q: nat :: IsZone(s', q) <==> IsZone(s, q) && q != p;
    assert Holds(s, zp, p, zp);
    assert forall q: nat, m: nat :: Holds(s', zp, q, m) <==> Holds(s, zp, q, m) && q != p;
    assert forall zi: nat, q: nat :: Listed(s', zi, q) <==> Listed(s, zi, q);
  }

  // ---- large blocks

  lemma TakeLargeKeepsInv(s: State, zp: nat, max: nat, p: nat, len: nat)
    requires Inv(s, zp, max) && Spare(s, zp, p, len)
    ensures Inv(TakeLarge(s, p, len), zp, max)
  {
    hide ZoneOk, Canonical, In, Says;
    var usage := s.usage[p := Large(len)];
    WriteSpare(s, zp, max, p, len, usage);
    var s1 := s.(usage := usage);
    SpareIsNew(s1, zp, max, p, len);
    var s' := TakeLarge(s, p, len);
    assert forall q: nat :: IsZone(s', q) <==> IsZone(s1, q);
    assert forall q: nat, m: nat :: Holds(s', zp, q, m) <==> Holds(s1, zp, q, m) || (q == p && m == len);
    assert forall zi: nat, q: nat :: Listed(s', zi, q) <==> Listed(s1, zi, q);
  }

  lemma DropLargeSpares(s: State, zp: nat, max: nat, p: nat)
    requires Inv(s, zp, max) && p in s.large
    ensures p < |s.usage| && Inv(DropLarge(s, p), zp, max) && Spare(DropLarge(s, p), zp, p, s.large[p])
  {
    hide ZoneOk, Canonical, In, Says;
    assert Holds(s, zp, p, s.large[p]);
    var s1 := s.(large := s.large - {p});
    assert forall q: nat :: IsZone(s1, q) <==> IsZone(s, q);
    assert forall q: nat, m: nat :: Holds(s1, zp, q, m) <==> Holds(s, zp, q, m) && q != p;
    assert forall zi: nat, q: nat :: Listed(s1, zi, q) <==> Listed(s, zi, q);
    assert Inv(s1, zp, max) && Spare(s1, zp, p, s.large[p]);
    WriteSpare(s1, zp, max, p, s.large[p], s.usage[p := Large(0)]);
  }

  // ---- what becomes of the live blocks

  /** A zone that is rewritten so that it has one live chunk more. */
  lemma MoreLive(s: State, s': State, p: nat, a: nat, chunk: nat)
    requires s'.large == s.large && p in s'.zones && s'.zones == s.zones[p := s'.zones[p]] && s'.zones[p].chunk == chunk
    requires p in s.zones ==> s.zones[p].chunk == chunk
    requires forall x :: LiveIn(s'.zones[p], x) <==> (p in s.zones && LiveIn(s.zones[p], x)) || x == a
    ensures forall x, l :: Live(s', x, l) <==> Live(s, x, l) || (x == a && l == chunk)
  {
    hide LiveIn;
    forall x, l
      ensures Live(s', x, l) <==> Live(s, x, l) || (x == a && l == chunk)
    {
      if q :| LiveSmall(s, q, x) && l == s.zones[q].chunk { assert LiveSmall(s', q, x); }
      if q :| LiveSmall(s', q, x) && l == s'.zones[q].chunk { assert q != p ==> LiveSmall(s, q, x); assert x != a ==> LiveSmall(s, q, x); }
      if x == a { assert LiveSmall(s', p, x); }
    }
  }

  /** A zone that is rewritten so that it has one live chunk less. */
  lemma LessLive(s: State, s': State, zp: nat, max: nat, p: nat, a: nat)
    requires Inv(s, zp, max) && LiveSmall(s, p, a)
    requires s'.large == s.large && p in s'.zones && s'.zones == s.zones[p := s'.zones[p]] && s'.zones[p].chunk == s.zones[p].chunk
    requires forall x :: LiveIn(s'.zones[p], x) <==> LiveIn(s.zones[p], x) && x != a
    ensures forall x, l :: Live(s', x, l) <==> Live(s, x, l) && x != a
  {
    hide LiveIn, Inv;
    forall x, l
      ensures Live(s', x, l) <==> Live(s, x, l) && x != a
    {
      if q :| LiveSmall(s', q, x) && l == s'.zones[q].chunk { assert LiveSmall(s, q, x); }
      if q :| LiveSmall(s, q, x) && l == s.zones[q].chunk { assert x != a ==> LiveSmall(s', q, x); }
      if Live(s', a, l) {
        if q :| LiveSmall(s', q, a) && l == s'.zones[q].chunk {
          assert q != p && LiveSmall(s, q, a);
          OneHome(s, zp, max, p, q, a);
        } else {
          var q :| q in s'.large && a == q * PAGE;
          NoLargeHere(s, zp, max, p, q, a);
        }
      }
    }
  }

  /** A pointer belongs to one zone only. */
  lemma OneHome(s: State, zp: nat, max: nat, p: nat, q: nat, a: nat)
    requires Inv(s, zp, max) && LiveSmall(s, p, a) && LiveSmall(s, q, a)
    ensures p == q
  {
    LiveApart(s.zones[p], p, zp, a, a);
    LiveApart(s.zones[q], q, zp, a, a);
    ChunkPositive(s.zones[p].index);
    ChunkPositive(s.zones[q].index);
    InPages(a, p, zp);
    InPages(a, q, zp);
    assert IsZone(s, p) && IsZone(s, q) && Holds(s, zp, p, zp) && Holds(s, zp, q, zp);
  }

  /** No chunk lies in a large block. */
  lemma NoLargeHere(s: State, zp: nat, max: nat, p: nat, q: nat, a: nat)
    requires Inv(s, zp, max) && LiveSmall(s, p, a)
    ensures !(q in s.large && a == q * PAGE)
  {
    if q in s.large && a == q * PAGE {
      TableFindsOwner(s, zp, max, p, a);
      TableFindsOwner(s, zp, max, q, a);
    }
  }

  /** The chunk that is served was nobody's. */
  lemma ServeLive(s: State, zp: nat, max: nat, zi: nat)
    requires Inv(s, zp, max) && zi < ZONES && zi in s.lists && s.lists[zi] != []
    ensures var p := s.lists[zi][0];
      && p in s.zones && (s.zones[p].uindex + 1 == s.zones[p].nmax ==> s.zones[p].freed != []) && s.zones[p].uindex >= 0
      && s.zones[p].chunk == ChunkOf(zi)
      && Adds(s, Serve(s, zi), NextChunk(s.zones[p]), ChunkOf(zi))
  {
    ServeKeepsInv(s, zp, max, zi);
    ListHead(s, zp, max, zi);
    var p := s.lists[zi][0];
    var z := s.zones[p];
    var s' := Serve(s, zi);
    var a := NextChunk(z);
    TakeKeepsZone(z, p, zp);
    TakeFields(z);
    MoreLive(s, s', p, a, z.chunk);
    assert LiveSmall(s', p, a);
    forall l
      ensures !Live(s, a, l)
    {
      NewIsNew(s, s', zp, max, p, a, l);
    }
  }

  lemma NewIsNew(s: State, s': State, zp: nat, max: nat, p: nat, a: nat, l: nat)
    requires Inv(s', zp, max) && LiveSmall(s', p, a) && (p in s.zones ==> !LiveIn(s.zones[p], a))
    requires s'.large == s.large && s'.zones == s.zones[p := s'.zones[p]]
    ensures !Live(s, a, l)
  {
    hide LiveIn, Inv;
    if Live(s, a, l) {
      if q :| LiveSmall(s, q, a) && l == s.zones[q].chunk {
        assert LiveSmall(s', q, a);
        OneHome(s', zp, max, p, q, a);
      } else {
        var q :| q in s.large && a == q * PAGE;
        NoLargeHere(s', zp, max, p, q, a);
      }
    }
  }

  /** Exactly one block of len bytes at a is new. */
  ghost predicate Adds(s: State, s': State, a: nat, len: nat) {
    && (forall l :: !Live(s, a, l))
    && forall x, l :: Live(s', x, l) <==> Live(s, x, l) || (x == a && l == len)
  }

  ghost predicate Drops(s: State, s': State, a: nat) {
    forall x, l :: Live(s', x, l) <==> Live(s, x, l) && x != a
  }

  ghost predicate SameLive(s: State, s': State) {
    forall x, l :: Live(s', x, l) <==> Live(s, x, l)
  }

  lemma OpenLive(s: State, zp: nat, max: nat, p: nat, zi: nat)
    requires Inv(s, zp, max) && Spare(s, zp, p, zp) && Marked(s, zp, p)
    requires zi < ZONES && zi in s.lists && ChunkOf(zi) * 4 <= zp * PAGE && 8 <= zp
    ensures Adds(s, Open(s, zp, p, zi), SlabZones.Slot(NewZone(p, zp, zi), 0), ChunkOf(zi))
  {
    hide Inv, Spare, Marked, NewZone, ChunkOf;
    OpenKeepsInv(s, zp, max, p, zi);
    SpareIsNew(s, zp, max, p, zp);
    NewZoneOk(p, zp, zi);
    var s' := Open(s, zp, p, zi);
    var a := SlabZones.Slot(NewZone(p, zp, zi), 0);
    MoreLive(s, s', p, a, ChunkOf(zi));
    assert LiveSmall(s', p, a);
    forall l
      ensures !Live(s, a, l)
    {
      NewIsNew(s, s', zp, max, p, a, l);
    }
  }

  lemma GiveLive(s: State, zp: nat, max: nat, p: nat, a: nat)
    requires Inv(s, zp, max) && LiveSmall(s, p, a)
    ensures s.zones[p].index in s.lists && Drops(s, Give(s, p, a), a)
  {
    GiveKeepsInv(s, zp, max, p, a);
    GiveKeepsZone(s.zones[p], p, zp, a);
    LessLive(s, Give(s, p, a), zp, max, p, a);
  }

  lemma RetireLive(s: State, zp: nat, max: nat, p: nat)
    requires Inv(s, zp, max) && p in s.zones && s.zones[p].index in s.lists && s.zones[p].nfree == s.zones[p].nmax
    ensures SameLive(s, Retire(s, p))
  {
    EmptyExactly(s.zones[p], p, zp);
    var s' := Retire(s, p);
    forall x, l
      ensures Live(s', x, l) <==> Live(s, x, l)
    {
      if q :| LiveSmall(s, q, x) && l == s.zones[q].chunk { assert LiveSmall(s', q, x); }
      if q :| LiveSmall(s', q, x) && l == s'.zones[q].chunk { assert LiveSmall(s, q, x); }
    }
  }

  /** Only zones and large blocks matter to what is live. */
  lemma SameOwners(s: State, s': State)
    requires s'.zones == s.zones && s'.large == s.large
    ensures SameLive(s, s')
  {
    forall x, l
      ensures Live(s', x, l) <==> Live(s, x, l)
    {
      if q :| LiveSmall(s, q, x) && l == s.zones[q].chunk { assert LiveSmall(s', q, x); }
      if q :| LiveSmall(s', q, x) && l == s'.zones[q].chunk { assert LiveSmall(s, q, x); }
    }
  }

  lemma TakeLargeLive(s: State, zp: nat, max: nat, p: nat, len: nat)
    requires Inv(s, zp, max) && Spare(s, zp, p, len)
    ensures p < |s.usage| && Adds(s, TakeLarge(s, p, len), p * PAGE, len * PAGE)
  {
    SpareIsNew(s, zp, max, p, len);
    TakeLargeKeepsInv(s, zp, max, p, len);
    hide Inv, LiveIn;
    var s' := TakeLarge(s, p, len);
    assert p in s'.large;
    forall x, l
      ensures Live(s', x, l) <==> Live(s, x, l) || (x == p * PAGE && l == len * PAGE)
    {
      if q :| LiveSmall(s, q, x) && l == s.zones[q].chunk { assert LiveSmall(s', q, x); }
      if q :| LiveSmall(s', q, x) && l == s'.zones[q].chunk { assert LiveSmall(s, q, x); }
      if q :| q in s.large && x == q * PAGE && l == s.large[q] * PAGE { assert q in s'.large; }
      if q :| q in s'.large && x == q * PAGE && l == s'.large[q] * PAGE { assert q == p || q in s.large; }
    }
    forall l
      ensures !Live(s, p * PAGE, l)
    {
      if q :| LiveSmall(s, q, p * PAGE) && l == s.zones[q].chunk {
        assert LiveSmall(s', q, p * PAGE);
        NoLargeHere(s', zp, max, q, p, p * PAGE);
      }
    }
  }

  lemma DropLargeLive(s: State, zp: nat, max: nat, p: nat)
    requires Inv(s, zp, max) && p in s.large
    ensures p < |s.usage| && Drops(s, DropLarge(s, p), p * PAGE)
  {
    DropLargeSpares(s, zp, max, p);
    hide Inv, LiveIn;
    var s' := DropLarge(s, p);
    forall x, l
      ensures Live(s', x, l) <==> Live(s, x, l) && x != p * PAGE
    {
      if q :| LiveSmall(s, q, x) && l == s.zones[q].chunk { assert LiveSmall(s', q, x); }
      if q :| LiveSmall(s', q, x) && l == s'.zones[q].chunk {
        assert LiveSmall(s, q, x);
        NoLargeHere(s, zp, max, q, p, x);
      }
      if q :| q in s.large && x == q * PAGE && l == s.large[q] * PAGE { assert q != p ==> q in s'.large; }
      if q :| q in s'.large && x == q * PAGE && l == s'.large[q] * PAGE { assert q in s.large && q != p; }
    }
  }
}
