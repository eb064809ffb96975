// rt_malloc and rt_free of slab.c over the zone lists, the zone cache, the page table
// and the page allocator. The methods change these fields; what they come to is a state
// of SlabLaws, where the invariants that tie zones, lists, table and pages to one another
// are stated and proved.
module SlabHeap {
  import opened Seqs
  import opened Words
  import opened SlabPages
  import opened SlabZones
  import opened SlabLaws
  import SlabThreads

  class Heap {
    const pages: PageHeap
    const zonePages: nat                // zone_page_cnt
    const zoneLimit: nat                // zone_limit
    var zones: map<nat, Zone>           // the zone headers, by first page
    var lists: map<nat, seq<nat>>       // zone_array
    var cached: seq<nat>                // zone_free
    var cachedCount: nat                // zone_free_cnt
    var usage: seq<Usage>               // memusage
    ghost var large: map<nat, nat>
    ghost const table: nat              // the first page behind the page table

    ghost function Model(): State
      reads this, pages
    {
      State(zones, lists, cached, usage, large, pages.runs)
    }

    ghost predicate Sound()
      reads this, pages, pages.next, pages.page
    {
      && 8 <= zonePages && zoneLimit <= 16384 && zoneLimit % 1024 == 0 && zoneLimit * 4 <= zonePages * PAGE
      && pages.Valid() && pages.next.Length == |usage|
      && cachedCount == |cached|
      && Inv(Model(), zonePages, RELEASE_THRESHOLD)
    }

    /** Between calls: every page behind the page table is free or part of a zone or a large block. */
    ghost predicate Valid()
      reads this, pages, pages.next, pages.page
    {
      Sound() && SlabThreads.Safe(SlabThreads.Shared(Model(), map[]), zonePages, table)
    }

    /** The sizes rt_system_heap_init picks for a heap of limsize bytes. */
    static method ZoneSize(limsize: nat) returns (zonePages: nat, zoneLimit: nat)
      ensures 8 <= zonePages <= 32 && zoneLimit <= 16384 && zoneLimit % 1024 == 0 && zoneLimit * 4 <= zonePages * PAGE
      ensures zonePages == 8 || zonePages == 16 || zonePages == 32
      ensures zonePages < 32 ==> zonePages * PAGE * 2 >= limsize / 1024
      ensures zonePages > 8 ==> zonePages * PAGE < limsize / 1024
      ensures zoneLimit == (if zonePages == 8 then 8192 else 16384)
    {
      var zoneSize := 32 * 1024;
      while zoneSize < 128 * 1024 && zoneSize * 2 < limsize / 1024
        invariant zoneSize == 32768 || zoneSize == 65536 || zoneSize == 131072
        invariant zoneSize > 32768 ==> zoneSize < limsize / 1024
        decreases 131072 - zoneSize
      {
        zoneSize := zoneSize * 2;
      }
      zoneLimit := zoneSize / 4;
      if zoneLimit > 16 * 1024 {
        zoneLimit := 16 * 1024;
      }
      zonePages := zoneSize / PAGE;
    }

    /** The page part of rt_system_heap_init; the page table itself takes the first pages. */
    static method InitPages(npages: nat) returns (pages: PageHeap)
      requires npages > 0
      ensures pages.Valid() && pages.next.Length == npages
      ensures fresh(pages) && fresh(pages.next) && fresh(pages.page)
      ensures var table := (npages * 4 + PAGE - 1) / PAGE; pages.runs == if table < npages then [Run(table, npages - table)] else []
    {
      pages := new PageHeap(npages);
      NothingFree(pages.runs, npages);
      pages.PageFree(0, npages);
      assert pages.runs == [Run(0, npages)];
      var table := (npages * 4 + PAGE - 1) / PAGE;
      var _ := pages.PageAlloc(table);
    }

    /** The zone part of rt_system_heap_init. */
    constructor (pages: PageHeap, limsize: nat, ghost table: nat)
      requires pages.Valid() && forall x: nat :: table <= x < pages.next.Length ==> In(pages.runs, x)
      ensures Valid() && this.pages == pages && this.table == table && |usage| == pages.next.Length && zones == map[] && large == map[] && cached == []
    {
      hide Inv, PageHeap.Linked, Canonical, Below;
      var zp, zl := ZoneSize(limsize);
      zonePages, zoneLimit := zp, zl;
      this.pages := pages;
      this.table := table;
      zones, cached, cachedCount, large := map[], [], 0, map[];
      lists := map zi: nat | zi in Below(ZONES) :: [];
      usage := seq(pages.next.Length, _ => Unused);
      new;
      EmptyInv(Model(), zonePages);
      SlabThreads.InitSafe(Model(), zonePages, table);
    }

    /** The page table entries of a new zone. */
    method MarkZone(p: nat)
      requires Sound() && Spare(Model(), zonePages, p, zonePages)
      modifies this`usage
      ensures Sound() && Spare(Model(), zonePages, p, zonePages) && SlabLaws.Marked(Model(), zonePages, p)
      ensures Model() == old(Model()).(usage := SlabThreads.Marks(old(usage), p, zonePages))
    {
      hide Inv, Spare, PageHeap.Linked, Canonical;
      SpareBounds(Model(), zonePages, p, zonePages);
      ghost var s0 := Model();
      var off := 0;
      while off < zonePages
        invariant off <= zonePages && |usage| == |s0.usage|
        invariant forall x :: 0 <= x < |usage| && !(p <= x < p + zonePages) ==> usage[x] == s0.usage[x]
        invariant forall x :: p <= x < p + off ==> usage[x] == Small(x - p)
      {
        usage := usage[p + off := Small(off)];
        off := off + 1;
      }
      assert forall x: nat :: x < zonePages ==> Says(usage, p, x);
      WriteSpare(s0, zonePages, RELEASE_THRESHOLD, p, zonePages, usage);
    }

    /** The page table entries of a zone that is given up. */
    method UnmarkZone(p: nat)
      requires Sound() && Spare(Model(), zonePages, p, zonePages)
      modifies this`usage
      ensures Sound() && Spare(Model(), zonePages, p, zonePages)
      ensures Model() == old(Model()).(usage := SlabThreads.Unmarks(old(usage), p, zonePages))
    {
      hide Inv, Spare, PageHeap.Linked, Canonical;
      SpareBounds(Model(), zonePages, p, zonePages);
      ghost var s0 := Model();
      var i := 0;
      while i < zonePages
        invariant i <= zonePages && |usage| == |s0.usage|
        invariant forall x :: 0 <= x < |usage| && !(p <= x < p + zonePages) ==> usage[x] == s0.usage[x]
        invariant forall x :: p <= x < p + i ==> usage[x] == Unused
      {
        usage := usage[p + i := Unused];
        i := i + 1;
      }
      WriteSpare(s0, zonePages, RELEASE_THRESHOLD, p, zonePages, usage);
    }

    /** Pages for a zone or a large block; they belong to nobody yet. */
    method GetPages(n: nat) returns (p: int)
      requires Sound() && n > 0
      modifies pages, pages.next, pages.page
      ensures Sound()
      ensures p == NIL <==> forall a: nat :: !AllFree(old(pages.runs), a, n)
      ensures p == NIL ==> Model() == old(Model())
      ensures p != NIL ==> p >= 0 && Spare(Model(), zonePages, p, n) && Model() == old(Model()).(runs := pages.runs)
      ensures p != NIL ==> SlabThreads.Taken(old(pages.runs), pages.runs, p, n)
      ensures p != NIL ==> AllFree(old(pages.runs), p, n) && forall a: nat :: AllFree(old(pages.runs), a, n) ==> p <= a
    {
      hide Inv, Spare, PageHeap.Linked, Canonical, AllFree, AllocAt;
      ghost var s0 := Model();
      AllocFindsLowest(pages.runs, n);
      ghost var k := FirstFit(pages.runs, 0, n);
      if k < |pages.runs| {
        AllocSpares(s0, zonePages, RELEASE_THRESHOLD, k, n);
      }
      p := pages.PageAlloc(n);
    }

    /** The large branch of rt_malloc. */
    method MallocLarge(size: nat) returns (r: Option<nat>)
      requires Valid() && size > 0
      modifies this, pages, pages.next, pages.page
      ensures Valid()
      ensures var n := (size + PAGE - 1) / PAGE;
        && (r.None? <==> forall a: nat :: !AllFree(old(pages.runs), a, n))
        && (r.None? ==> Model() == old(Model()))
        && (r.Some? ==> Adds(old(Model()), Model(), r.value, n * PAGE))
        && (r.Some? ==> r.value % PAGE == 0 && SlabThreads.LowestGone(old(pages.runs), pages.runs, r.value / PAGE, n))
    {
      hide Inv, Spare, PageHeap.Linked, Canonical, AllFree, Adds, Live, SlabThreads.LowestGone;
      var n := (size + PAGE - 1) / PAGE;
      ghost var s0 := Model();
      var p := GetPages(n);
      if p == NIL {
        return None;
      }
      SpareBounds(Model(), zonePages, p, n);
      ghost var s1 := Model();
      TakeLargeKeepsInv(s1, zonePages, RELEASE_THRESHOLD, p, n);
      TakeLargeLive(s1, zonePages, RELEASE_THRESHOLD, p, n);
      AddsAfter(s0, s1, TakeLarge(s1, p, n), p * PAGE, n * PAGE);
      SlabThreads.LargeServed(s0, s1, p, n, zonePages, table);
      SlabThreads.RunsCanonical(s0, zonePages, RELEASE_THRESHOLD);
      SlabThreads.LowestTaken(s0.runs, s1.runs, p, n);
      usage := usage[p := Large(n)];
      large := large[p := n];
      r := Some(p * PAGE);
    }

    /** The branch of rt_malloc for a zone with a free chunk. */
    method MallocListed(zi: nat) returns (r: nat)
      requires Sound() && zi < ZONES && zi in lists && lists[zi] != []
      modifies this`zones, this`lists
      ensures Sound() && Adds(old(Model()), Model(), r, ChunkOf(zi)) && zi in old(lists) && SlabThreads.Serves(old(Model()), Model(), zi)
      ensures SlabThreads.TakenFrom(old(Model()), Model(), zonePages, zi, r)
    {
      hide Inv, PageHeap.Linked, Canonical, Adds, ChunkOf, ZoneOk, SlabZones.Slot, SlabThreads.TakenFrom;
      ghost var s0 := Model();
      ServeKeepsInv(Model(), zonePages, RELEASE_THRESHOLD, zi);
      ServeLive(Model(), zonePages, RELEASE_THRESHOLD, zi);
      var p := lists[zi][0];
      var z := zones[p];
      z := z.(nfree := z.nfree - 1);
      if z.nfree == 0 {
        lists := lists[zi := lists[zi][1..]];
      }
      if z.uindex + 1 != z.nmax {
        z := z.(uindex := z.uindex + 1);
        r := z.base + z.uindex * ChunkOf(zi);
        assert r == SlabZones.Slot(z, z.uindex) by { SlotIs(z, z.uindex, ChunkOf(zi)); }
        SameSlot(old(zones)[p], z, z.uindex);
      } else {
        r := z.freed[0];
        z := z.(freed := z.freed[1..]);
      }
      zones := zones[p := z];
      SlabThreads.ListedFrom(s0, Model(), zonePages, RELEASE_THRESHOLD, zi);
    }

    /** The last part of rt_malloc: a new zone on pages nobody holds. */
    method OpenZone(p: nat, zi: nat) returns (r: nat)
      requires Sound() && Spare(Model(), zonePages, p, zonePages) && SlabLaws.Marked(Model(), zonePages, p)
      requires zi < ZONES && ChunkOf(zi) * 4 <= zonePages * PAGE
      modifies this`zones, this`lists
      ensures Sound() && Adds(old(Model()), Model(), r, ChunkOf(zi)) && zi in old(lists) && Model() == Open(old(Model()), zonePages, p, zi)
      ensures r == SlabZones.Slot(NewZone(p, zonePages, zi), 0)
    {
      hide Inv, PageHeap.Linked, Canonical, Adds, ChunkOf, ZoneOk, SlabZones.Slot, Spare, SlabLaws.Marked, FirstOffset, And, Or;
      ListKnown(Model(), zonePages, zi);
      OpenKeepsInv(Model(), zonePages, RELEASE_THRESHOLD, p, zi);
      OpenLive(Model(), zonePages, RELEASE_THRESHOLD, p, zi);
      ChunkPositive(zi);
      var size := ChunkOf(zi);
      FirstOffsetMasks(size);
      var off := if Or(size, size - 1) + 1 == 2 * size then And(ZONE_HEADER + (size - 1), Complement(size - 1))
                 else And(ZONE_HEADER + 7, Complement(7));
      var nmax := (zonePages * PAGE - off) / size;
      var z := Zone(nmax - 1, nmax, p * PAGE + off, 0, size, zi, []);
      assert z == NewZone(p, zonePages, zi);
      r := z.base + z.uindex * size;
      SlotIs(z, z.uindex, size);
      zones := zones[p := z];
      lists := lists[zi := [p] + lists[zi]];
    }

    /** rt_malloc */
    method RtMalloc(size: nat) returns (r: Option<nat>)
      requires Valid()
      modifies this, pages, pages.next, pages.page
      ensures Valid()
      ensures size == 0 ==> r.None?
      ensures size >= zoneLimit && size > 0 ==>
        var n := (size + PAGE - 1) / PAGE;
        && (r.None? <==> forall a: nat :: !AllFree(old(pages.runs), a, n))
        && (r.Some? ==> Adds(old(Model()), Model(), r.value, n * PAGE))
        && (r.Some? ==> r.value % PAGE == 0 && SlabThreads.LowestGone(old(pages.runs), pages.runs, r.value / PAGE, n))
      ensures 0 < size < zoneLimit ==>
        forall zi: nat :: ClassOf(size, zi) ==>
          && zi in old(lists)
          && (r.None? <==> old(lists)[zi] == [] && old(cached) == [] && forall a: nat :: !AllFree(old(pages.runs), a, zonePages))
          && (r.Some? ==> Adds(old(Model()), Model(), r.value, ChunkOf(zi)) && SlabThreads.TakenFrom(old(Model()), Model(), zonePages, zi, r.value))
      ensures r.None? ==> Model() == old(Model())
    {
      hide Inv, PageHeap.Linked, Canonical, Adds, ChunkOf, Spare, SlabLaws.Marked, AllFree, Live, ClassOf, SlabThreads.TakenFrom, SlabThreads.LowestGone, NewZone;
      if size == 0 {
        return None;
      }
      if size >= zoneLimit {
        r := MallocLarge(size);
        return;
      }
      var zi, chunk := ZoneIndex(size);
      SmallChunk(size, zi, zoneLimit);
      OnlyClass(size, zi);
      ListKnown(Model(), zonePages, zi);
      ghost var s0 := Model();
      if lists[zi] != [] {
        var a := MallocListed(zi);
        SlabThreads.ListedServed(s0, Model(), zi, zonePages, table);
        return Some(a);
      }
      var p: int;
      if cached != [] {
        p := cached[0];
        UncacheSpares(Model(), zonePages, RELEASE_THRESHOLD);
        SlabThreads.CachedServed(s0, zi, zonePages, table);
        SlabThreads.CachedFrom(s0, zonePages, zi);
        SameOwners(s0, Uncache(s0));
        Relax(Uncache(s0), zonePages);
        cached := cached[1..];
        cachedCount := cachedCount - 1;
      } else {
        p := GetPages(zonePages);
        if p == NIL {
          return None;
        }
        SlabThreads.ZoneServed(s0, Model(), p, zi, zonePages, table);
        SlabThreads.FreshFrom(s0, Model(), zonePages, RELEASE_THRESHOLD, p, zi);
        MarkZone(p);
        SameOwners(s0, Model());
      }
      ghost var s1 := Model();
      var a := OpenZone(p, zi);
      AddsSame(s0, s1, Model(), a, ChunkOf(zi));
      r := Some(a);
    }

    /** The large branch of rt_free. */
    method FreeLarge(p: nat)
      requires Valid() && p in large
      modifies this, pages, pages.next, pages.page
      ensures Valid() && Drops(old(Model()), Model(), p * PAGE) && p in old(large)
      ensures Model() == SlabThreads.FreeCall(old(Model()), SlabThreads.FreeLarge(0, p), zonePages, table)
      ensures SlabThreads.PagesBack(old(Model()), Model(), p)
    {
      hide Inv, PageHeap.Linked, Canonical, Spare, Drops, NoneFree, Free, In, SlabThreads.Safe;
      SlabThreads.LargeFreed(Model(), 0, p, zonePages, table);
      ghost var s0 := Model();
      DropLargeSpares(s0, zonePages, RELEASE_THRESHOLD, p);
      DropLargeLive(s0, zonePages, RELEASE_THRESHOLD, p);
      LargeEntry(s0, zonePages, p);
      var size := usage[p].pages;
      usage := usage[p := Large(0)];
      large := large - {p};
      ghost var s1 := Model();
      SpareFacts(s1, zonePages, p, size);
      FreeSpare(s1, zonePages, RELEASE_THRESHOLD, p, size);
      pages.PageFree(p, size);
      SameOwners(s1, Model());
      DropsSame(s0, s1, Model(), p * PAGE);
    }

    /** A chunk goes back to the zone of page p. */
    method GiveBack(p: nat, a: nat)
      requires Sound() && LiveSmall(Model(), p, a)
      modifies this`zones, this`lists
      ensures Sound() && Drops(old(Model()), Model(), a) && zones.Keys == old(zones).Keys
      ensures p in old(zones) && old(zones)[p].index in old(lists) && Model() == Give(old(Model()), p, a)
      ensures zones.Keys == old(zones).Keys && zones[p].index == old(zones)[p].index && zones[p].nmax == old(zones)[p].nmax
      ensures zones[p].index in lists && p in lists[zones[p].index]
    {
      hide Inv, PageHeap.Linked, Canonical, Drops, ZoneOk, LiveIn;
      GiveKeepsInv(Model(), zonePages, RELEASE_THRESHOLD, p, a);
      GiveLive(Model(), zonePages, RELEASE_THRESHOLD, p, a);
      GivenListed(Model(), zonePages, p, a);
      var z := zones[p];
      z := z.(freed := [a] + z.freed);
      var before := z.nfree;
      z := z.(nfree := z.nfree + 1);
      zones := zones[p := z];
      if before == 0 {
        lists := lists[z.index := [p] + lists[z.index]];
      }
    }

    /** An empty zone that is not alone on its list is cached; past the threshold its pages are released. */
    method RetireZone(p: nat)
      requires Sound() && p in zones && zones[p].index in lists && zones[p].nfree == zones[p].nmax
      modifies this, pages, pages.next, pages.page
      ensures Sound() && SameLive(old(Model()), Model())
      ensures p in old(zones) && old(zones)[p].index in old(lists) && Model() == SlabThreads.Retired(old(Model()), p, zonePages)
    {
      hide Inv, PageHeap.Linked, Canonical, SameLive, ZoneOk, Spare, NoneFree, Free, Live;
      ghost var s0 := Model();
      RetireKeepsInv(s0, zonePages, RELEASE_THRESHOLD, p);
      RetireLive(s0, zonePages, RELEASE_THRESHOLD, p);
      CacheBound(s0, zonePages);
      var zi := zones[p].index;
      lists := lists[zi := Without(lists[zi], p)];
      zones := zones - {p};
      cached := [p] + cached;
      cachedCount := cachedCount + 1;
      ghost var s1 := Model();
      if cachedCount > RELEASE_THRESHOLD {
        var q := cached[0];
        UncacheSpares(s1, zonePages, RELEASE_THRESHOLD + 1);
        cached := cached[1..];
        cachedCount := cachedCount - 1;
        UnmarkZone(q);
        ghost var s2 := Model();
        SpareFacts(s2, zonePages, q, zonePages);
        FreeSpare(s2, zonePages, RELEASE_THRESHOLD, q, zonePages);
        pages.PageFree(q, zonePages);
      } else {
        Fewer(s1, zonePages);
      }
      SameOwners(s1, Model());
      SameTwice(s0, s1, Model());
    }

    /** rt_free on a block that rt_malloc has handed out. */
    method RtFree(a: nat, ghost len: nat)
      requires Valid() && Live(Model(), a, len)
      modifies this, pages, pages.next, pages.page
      ensures Valid() && Drops(old(Model()), Model(), a)
      ensures a % PAGE == 0 && a / PAGE in old(large) ==> SlabThreads.PagesBack(old(Model()), Model(), a / PAGE)
      ensures forall p: nat :: LiveSmall(old(Model()), p, a) ==>
        p in old(zones) && old(zones)[p].index in old(lists) && SlabThreads.Settled(old(Model()), Model(), p, a, zonePages)
    {
      hide Inv, PageHeap.Linked, Canonical, Drops, ZoneOk, LiveIn, SameLive, Live, Says, SlabThreads.Safe, SlabThreads.PagesBack,
        SlabThreads.Settled, Give, Retire, SlabThreads.Retired;
      ghost var s0 := Model();
      ghost var home, l := LiveHome(s0, zonePages, RELEASE_THRESHOLD, a, len);
      TableFindsOwner(s0, zonePages, RELEASE_THRESHOLD, home, a);
      TableFindsOwner(s0, zonePages, RELEASE_THRESHOLD, a / PAGE, a);
      forall p: nat | LiveSmall(s0, p, a)
        ensures p <= a / PAGE && usage[a / PAGE] == Small(a / PAGE - p)
      {
        TableFindsOwner(s0, zonePages, RELEASE_THRESHOLD, p, a);
      }
      var page := a / PAGE;
      if usage[page].Large? {
        FreeLarge(page);
        return;
      }
      var z := page - usage[page].offset;
      SlabThreads.ChunkFreed(s0, 0, z, a, zonePages, table);
      SlabThreads.ZoneFreed(s0, 0, z, a, zonePages, table);
      GiveBack(z, a);
      ghost var s1 := Model();
      var list := lists[zones[z].index];
      if zones[z].nfree == zones[z].nmax && (list[|list| - 1] != z || list[0] != z) {
        RetireZone(z);
        DropsSame(s0, s1, Model(), a);
      }
    }
  }

  lemma LargeEntry(s: State, zp: nat, p: nat)
    requires Inv(s, zp, RELEASE_THRESHOLD) && p in s.large
    ensures p < |s.usage| && s.usage[p] == Large(s.large[p])
  {
    assert Holds(s, zp, p, s.large[p]);
  }

  lemma SpareFacts(s: State, zp: nat, p: nat, len: nat)
    requires Spare(s, zp, p, len)
    ensures len > 0 && p + len <= |s.usage| && NoneFree(s.runs, p, len)
  {
  }

  lemma DropsSame(s0: State, s1: State, s2: State, a: nat)
    requires Drops(s0, s1, a) && SameLive(s1, s2)
    ensures Drops(s0, s2, a)
  {
  }

  lemma SameTwice(s0: State, s1: State, s2: State)
    requires SameLive(s0, s1) && SameLive(s1, s2)
    ensures SameLive(s0, s2)
  {
  }

  lemma CacheBound(s: State, zp: nat)
    requires Inv(s, zp, RELEASE_THRESHOLD)
    ensures |s.cached| <= RELEASE_THRESHOLD
  {
  }

  lemma Fewer(s: State, zp: nat)
    requires Inv(s, zp, RELEASE_THRESHOLD + 1) && |s.cached| <= RELEASE_THRESHOLD
    ensures Inv(s, zp, RELEASE_THRESHOLD)
  {
  }

  /** A zone that has taken a chunk back is on its list. */
  lemma GivenListed(s: State, zp: nat, p: nat, a: nat)
    requires Inv(s, zp, RELEASE_THRESHOLD) && LiveSmall(s, p, a)
    ensures s.zones[p].index in s.lists && p in Give(s, p, a).lists[s.zones[p].index] && s.zones[p].nfree >= 0
  {
    EmptyExactly(s.zones[p], p, zp);
    if s.zones[p].nfree != 0 {
      assert Listed(s, s.zones[p].index, p);
    }
  }

  lemma SpareBounds(s: State, zp: nat, p: nat, len: nat)
    requires Spare(s, zp, p, len)
    ensures len > 0 && p + len <= |s.usage|
  {
  }

  lemma ListKnown(s: State, zp: nat, zi: nat)
    requires Inv(s, zp, RELEASE_THRESHOLD) && zi < ZONES
    ensures zi in s.lists
  {
  }

  lemma Relax(s: State, zp: nat)
    requires Inv(s, zp, RELEASE_THRESHOLD - 1)
    ensures Inv(s, zp, RELEASE_THRESHOLD)
  {
  }

  lemma SlotIs(z: Zone, i: nat, chunk: nat)
    requires z.chunk == chunk
    ensures SlabZones.Slot(z, i) == z.base + i * chunk
  {
  }

  lemma SameSlot(z: Zone, z': Zone, i: nat)
    requires z.base == z'.base && z.chunk == z'.chunk
    ensures SlabZones.Slot(z, i) == SlabZones.Slot(z', i)
  {
  }

  lemma AddsSame(s0: State, s1: State, s2: State, a: nat, len: nat)
    requires SameLive(s0, s1) && Adds(s1, s2, a, len)
    ensures Adds(s0, s2, a, len)
  {
  }

  lemma AddsAfter(s0: State, s1: State, s2: State, a: nat, len: nat)
    requires s1 == s0.(runs := s1.runs) && Adds(s1, s2, a, len)
    ensures Adds(s0, s2, a, len)
  {
    SameOwners(s0, s1);
    AddsSame(s0, s1, s2, a, len);
  }

  /** Below zone_limit a request is rounded to at most a quarter of a zone. */
  lemma SmallChunk(size: nat, zi: nat, limit: nat)
    requires ClassOf(size, zi) && size < limit <= 16384 && limit % 1024 == 0
    ensures ChunkOf(zi) <= limit && zi < ZONES
  {
  }

  lemma OnlyClass(size: nat, zi: nat)
    requires ClassOf(size, zi)
    ensures forall zj: nat :: ClassOf(size, zj) ==> zj == zi
  {
    forall zj: nat | ClassOf(size, zj)
      ensures zj == zi
    {
      ClassesOrder(size, size, zi, zj);
    }
  }

  lemma NothingFree(runs: seq<Run>, n: nat)
    requires runs == []
    ensures NoneFree(runs, 0, n)
  {
  }

  lemma EmptyInv(s: State, zp: nat)
    requires zp > 0 && s.zones == map[] && s.large == map[] && s.cached == []
    requires forall zi: nat :: zi < ZONES ==> zi in s.lists && s.lists[zi] == []
    requires Canonical(s.runs) && forall i :: 0 <= i < |s.runs| ==> s.runs[i].End() <= |s.usage|
    ensures Inv(s, zp, RELEASE_THRESHOLD)
  {
    assert forall p: nat, len: nat :: !Holds(s, zp, p, len);
    assert forall p: nat :: !IsZone(s, p);
  }

  /** rt_system_heap_init on npages pages, of which the page table takes the first. */
  method HeapInit(npages: nat) returns (h: Heap)
    requires npages > 0
    ensures h.Valid() && |h.usage| == npages && h.table == (npages * 4 + PAGE - 1) / PAGE
    ensures forall a: nat, len: nat :: !Live(h.Model(), a, len)
  {
    hide Canonical, PageHeap.Linked;
    var pages := Heap.InitPages(npages);
    ghost var table := (npages * 4 + PAGE - 1) / PAGE;
    SlabThreads.NewRun(table, npages - table);
    h := new Heap(pages, npages * PAGE, table);
    hide Inv;
  }
}
