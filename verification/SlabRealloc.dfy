// rt_realloc of slab.c with the bytes behind it. What the allocator itself writes, zone
// headers, links and page heads, lies in no live block, so a block that moves takes its
// contents along and leaves those of all others alone.
module SlabRealloc {
  import opened Seqs
  import opened Words
  import opened SlabPages
  import opened SlabZones
  import opened SlabLaws
  import opened SlabHeap

  // ---- the bytes that the allocator writes for itself

  ghost predicate HeldPage(s: State, zp: nat, x: nat) {
    exists q: nat, m: nat :: Holds(s, zp, q, m) && q <= x < q + m
  }

  ghost predicate InHeader(s: State, x: nat) {
    exists p :: p in s.zones && p * PAGE <= x < p * PAGE + ZONE_HEADER
  }

  /** The link word of a freed chunk. */
  ghost predicate InLink(s: State, x: nat) {
    exists p, a :: p in s.zones && a in s.zones[p].freed && a <= x < a + WORD
  }

  ghost predicate InCached(s: State, zp: nat, x: nat) {
    exists p :: p in s.cached && p * PAGE <= x < (p + zp) * PAGE
  }

  /** Zone headers, links of freed chunks, cached zones, and pages that are free or hold the page table. */
  ghost predicate OwnByte(s: State, zp: nat, x: nat) {
    InHeader(s, x) || InLink(s, x) || InCached(s, zp, x) || !HeldPage(s, zp, x / PAGE)
  }

  lemma LinkApart(z: Zone, p: nat, zp: nat, a: nat, b: nat)
    requires ZoneOk(z, p, zp) && LiveIn(z, a) && b in z.freed
    ensures b + WORD <= a || a + z.chunk <= b
  {
    hide ChunkOf;
    assert Carved(z, b);
    var i: nat :| i <= z.uindex && a == SlabZones.Slot(z, i);
    var j: nat :| j <= z.uindex && b == SlabZones.Slot(z, j);
    if i < j { SlotsApart(z, i, j); }
    if j < i { SlotsApart(z, j, i); }
    ChunkHoldsLink(z.index);
  }

  lemma FreedInside(z: Zone, p: nat, zp: nat, b: nat)
    requires ZoneOk(z, p, zp) && b in z.freed
    ensures p * PAGE <= b && b + WORD <= (p + zp) * PAGE
  {
    hide ChunkOf;
    assert Carved(z, b);
    var j: nat :| j <= z.uindex && b == SlabZones.Slot(z, j);
    SlotInside(z, p, zp, j);
    ChunkHoldsLink(z.index);
  }

  lemma ChunkHoldsLink(zi: nat)
    requires zi < ZONES
    ensures ChunkOf(zi) >= WORD
  {
  }

  lemma PagesOrder(i: nat, j: nat)
    ensures i <= j ==> i * PAGE <= j * PAGE
  {
  }

  /** Pages of different owners have no bytes in common. */
  lemma BytesApart(s: State, zp: nat, max: nat, p: nat, l: nat, q: nat, m: nat, x: nat)
    requires Inv(s, zp, max) && Holds(s, zp, p, l) && Holds(s, zp, q, m) && p * PAGE <= x < (p + l) * PAGE && q * PAGE <= x < (q + m) * PAGE
    ensures p == q
  {
    PagesOrder(p + l, q);
    PagesOrder(q + m, p);
  }

  lemma HeaderApart(s: State, zp: nat, max: nat, a: nat, len: nat, q: nat, x: nat)
    requires Inv(s, zp, max) && zp > 0 && Live(s, a, len) && a <= x < a + len && q in s.zones
    ensures !(q * PAGE <= x < q * PAGE + ZONE_HEADER)
  {
    var p, l := LiveHome(s, zp, max, a, len);
    if q * PAGE <= x < q * PAGE + ZONE_HEADER {
      assert IsZone(s, q) && Holds(s, zp, q, zp);
      BytesApart(s, zp, max, p, l, q, zp, x);
      LiveApart(s.zones[p], p, zp, a, a);
    }
  }

  lemma FreedApart(s: State, zp: nat, max: nat, a: nat, len: nat, q: nat, b: nat, x: nat)
    requires Inv(s, zp, max) && Live(s, a, len) && a <= x < a + len && q in s.zones && b in s.zones[q].freed
    ensures !(b <= x < b + WORD)
  {
    var p, l := LiveHome(s, zp, max, a, len);
    if b <= x < b + WORD {
      assert IsZone(s, q) && Holds(s, zp, q, zp);
      FreedInside(s.zones[q], q, zp, b);
      BytesApart(s, zp, max, p, l, q, zp, x);
      LinkApart(s.zones[p], p, zp, a, b);
    }
  }

  lemma CachedApart(s: State, zp: nat, max: nat, a: nat, len: nat, q: nat, x: nat)
    requires Inv(s, zp, max) && Live(s, a, len) && a <= x < a + len && q in s.cached
    ensures !(q * PAGE <= x < (q + zp) * PAGE)
  {
    var p, l := LiveHome(s, zp, max, a, len);
    if q * PAGE <= x < (q + zp) * PAGE {
      assert IsZone(s, q) && Holds(s, zp, q, zp);
      BytesApart(s, zp, max, p, l, q, zp, x);
    }
  }

  /** The allocator writes into no live block. */
  lemma OwnApart(s: State, zp: nat, max: nat, a: nat, len: nat, x: nat)
    requires Inv(s, zp, max) && Live(s, a, len) && a <= x < a + len
    ensures !OwnByte(s, zp, x)
  {
    var p, l := LiveHome(s, zp, max, a, len);
    InPages(x, p, l);
    hide Live, Holds, Inv;
    assert HeldPage(s, zp, x / PAGE);
    if q :| q in s.zones && q * PAGE <= x < q * PAGE + ZONE_HEADER {
      HeaderApart(s, zp, max, a, len, q, x);
    }
    if q, b :| q in s.zones && b in s.zones[q].freed && b <= x < b + WORD {
      FreedApart(s, zp, max, a, len, q, b, x);
    }
    if q :| q in s.cached && q * PAGE <= x < (q + zp) * PAGE {
      CachedApart(s, zp, max, a, len, q, x);
    }
  }

  /** The allocator has written what it likes where it may. */
  ghost predicate Spoils(s: State, zp: nat, ram: seq<byte>, ram': seq<byte>) {
    |ram'| == |ram| && forall x: nat :: x < |ram| && !OwnByte(s, zp, x) ==> ram'[x] == ram[x]
  }

  /** Every byte of every live block, but for the block at address but, is as it was. */
  ghost predicate Keeps(s: State, ram: seq<byte>, ram': seq<byte>, but: Option<nat>) {
    |ram'| == |ram| && forall a: nat, len: nat, x: nat {:trigger Live(s, a, len), ram'[x]} ::
      Live(s, a, len) && but != Some(a) && a <= x < a + len && x < |ram| ==> ram'[x] == ram[x]
  }

  lemma SpoilsKeep(s: State, zp: nat, max: nat, ram: seq<byte>, ram': seq<byte>)
    requires Inv(s, zp, max) && Spoils(s, zp, ram, ram')
    ensures Keeps(s, ram, ram', None)
  {
    hide Inv, Live, OwnByte;
    forall a: nat, len: nat, x: nat | Live(s, a, len) && a <= x < a + len && x < |ram|
      ensures ram'[x] == ram[x]
    {
      OwnApart(s, zp, max, a, len, x);
    }
  }

  // ---- rt_realloc

  ghost predicate NoRoom(runs: seq<Run>, n: nat) {
    forall a: nat :: !AllFree(runs, a, n)
  }

  function PagesFor(size: nat): nat {
    (size + PAGE - 1) / PAGE
  }

  /** rt_malloc refuses a request of size bytes, of class zi if it is a small one. */
  ghost predicate Refused(s: State, zp: nat, limit: nat, size: nat, zi: nat) {
    || size == 0
    || (size >= limit && NoRoom(s.runs, PagesFor(size)))
    || (size < limit && zi in s.lists && s.lists[zi] == [] && s.cached == [] && NoRoom(s.runs, zp))
  }

  lemma ClassExists(size: nat) returns (zi: nat)
    requires 1 <= size < 16384
    ensures ClassOf(size, zi)
  {
    hide ClassOf, ClassAt;
    var step := if size < 128 then 8 else if size < 256 then 16 else if size < 512 then 32 else if size < 1024 then 64
      else if size < 2048 then 128 else if size < 4096 then 256 else if size < 8192 then 512 else 1024;
    var q := Quotient(size, step);
    ClassOfQuotient(size, step, q);
    zi := ClassAt(q, step);
  }

  /** The class that a request for size bytes belongs to, if it is one that zoneindex knows. */
  ghost function TheClass(size: nat): (zi: nat)
    ensures 1 <= size < 16384 ==> ClassOf(size, zi)
  {
    if 1 <= size < 16384 then
      assert exists zi :: ClassOf(size, zi) by { var zi := ClassExists(size); }
      var zi: nat :| ClassOf(size, zi);
      zi
    else 0
  }

  /** The bytes that a request of class zi is served with. */
  ghost function Served(size: nat, limit: nat, zi: nat): nat {
    if size >= limit then PagesFor(size) * PAGE else ChunkOf(zi)
  }

  lemma ServedInFull(size: nat, limit: nat)
    requires 0 < size && limit <= 16384
    ensures Served(size, limit, TheClass(size)) >= size
  {
  }

  lemma SpoilsNothing(s: State, zp: nat, ram: seq<byte>)
    ensures Spoils(s, zp, ram, ram)
  {
  }

  /** Keeping what is live after a malloc, or before a free, is keeping what is live on the other side. */
  lemma KeptAcross(s: State, s': State, ram: seq<byte>, ram': seq<byte>)
    requires Keeps(s', ram, ram', None) && (SameLive(s, s') || exists a: nat, len: nat :: Adds(s, s', a, len))
    ensures Keeps(s, ram, ram', None)
  {
    hide Live;
  }

  /** rt_malloc with the bytes: what is live stays as it is, and a new block joins it. */
  method Malloc(h: Heap, size: nat, ghost ram: seq<byte>) returns (r: Option<nat>, ghost ram': seq<byte>)
    requires h.Valid()
    modifies h, h.pages, h.pages.next, h.pages.page
    ensures h.Valid() && |h.usage| == old(|h.usage|) && Keeps(old(h.Model()), ram, ram', None)
    ensures r.None? <==> Refused(old(h.Model()), h.zonePages, h.zoneLimit, size, TheClass(size))
    ensures r.None? ==> h.Model() == old(h.Model())
    ensures r.Some? ==> var len := Served(size, h.zoneLimit, TheClass(size));
      len >= size && Adds(old(h.Model()), h.Model(), r.value, len)
  {
    hide Inv, PageHeap.Linked, Adds, ChunkOf, AllFree, Live, ClassOf, Keeps, Spoils;
    ghost var s, zi := h.Model(), TheClass(size);
    r := h.RtMalloc(size);
    if r.Some? { ServedInFull(size, h.zoneLimit); }
    SpoilsNothing(h.Model(), h.zonePages, ram);
    ram' :| Spoils(h.Model(), h.zonePages, ram, ram');
    SpoilsKeep(h.Model(), h.zonePages, RELEASE_THRESHOLD, ram, ram');
    if r.Some? { KeptAcross(s, h.Model(), ram, ram'); }
  }

  /** rt_free with the bytes. */
  method Free(h: Heap, a: nat, ghost len: nat, ghost ram: seq<byte>) returns (ghost ram': seq<byte>)
    requires h.Valid() && Live(h.Model(), a, len)
    modifies h, h.pages, h.pages.next, h.pages.page
    ensures h.Valid() && Drops(old(h.Model()), h.Model(), a) && Keeps(h.Model(), ram, ram', None)
  {
    hide Inv, PageHeap.Linked, Drops, Live, Keeps, Spoils;
    h.RtFree(a, len);
    SpoilsNothing(h.Model(), h.zonePages, ram);
    ram' :| Spoils(h.Model(), h.zonePages, ram, ram');
    SpoilsKeep(h.Model(), h.zonePages, RELEASE_THRESHOLD, ram, ram');
  }

  // ---- rt_realloc

  /** What zoneindex makes of a request; it has no class for those of four pages and more, and leaves them. */
  ghost function Rounded(size: nat): nat {
    if size < 16384 then ChunkOf(TheClass(size)) else size
  }

  /** The live block at a has become one of len bytes at b. */
  ghost predicate Moves(s: State, s': State, a: nat, b: nat, len: nat) {
    && (forall l :: !Live(s, b, l))
    && forall x, l :: Live(s', x, l) <==> (Live(s, x, l) && x != a) || (x == b && l == len)
  }

  lemma AddsThenDrops(s0: State, s1: State, s2: State, a: nat, l: nat, b: nat, len: nat)
    requires Live(s0, a, l) && Adds(s0, s1, b, len) && Drops(s1, s2, a)
    ensures Moves(s0, s2, a, b, len) && Live(s2, b, len)
  {
    hide Live;
  }

  /** rt_memcpy within the heap. */
  ghost function Copied(ram: seq<byte>, to: nat, from: nat, n: nat): (r: seq<byte>)
    requires to + n <= |ram| && from + n <= |ram|
    ensures |r| == |ram| && (forall x: nat :: x < |ram| && !(to <= x < to + n) ==> r[x] == ram[x])
    ensures forall x: nat :: to <= x < to + n ==> r[x] == ram[from + (x - to)]
  {
    ram[..to] + ram[from..from + n] + ram[to + n..]
  }

  lemma CopyKeeps(s: State, zp: nat, ram: seq<byte>, b: nat, m: nat, a: nat, n: nat)
    requires Inv(s, zp, RELEASE_THRESHOLD) && Live(s, b, m) && n <= m && b + n <= |ram| && a + n <= |ram|
    ensures Keeps(s, ram, Copied(ram, b, a, n), Some(b))
  {
    hide Inv, Live;
    forall c: nat, len: nat, x: nat | Live(s, c, len) && c != b && c <= x < c + len && x < |ram|
      ensures Copied(ram, b, a, n)[x] == ram[x]
    {
      LiveDisjoint(s, zp, RELEASE_THRESHOLD, c, len, b, m);
    }
  }

  /** From the first to the last of the three parts of a move. */
  lemma MovedKeeps(s0: State, s1: State, s2: State, ram0: seq<byte>, ram1: seq<byte>, ram2: seq<byte>, ram3: seq<byte>, a: nat, b: nat, m: nat)
    requires Adds(s0, s1, b, m) && Drops(s1, s2, a)
    requires Keeps(s0, ram0, ram1, None) && Keeps(s1, ram1, ram2, Some(b)) && Keeps(s2, ram2, ram3, None)
    ensures Keeps(s0, ram0, ram3, Some(a))
  {
    hide Live;
    forall c: nat, len: nat, x: nat | Live(s0, c, len) && c != a && c <= x < c + len && x < |ram0|
      ensures ram3[x] == ram0[x]
    {
      assert Live(s1, c, len) && c != b && Live(s2, c, len);
    }
  }

  lemma KeptAt(s: State, ram: seq<byte>, ram': seq<byte>, a: nat, len: nat, n: nat)
    requires Keeps(s, ram, ram', None) && Live(s, a, len) && n <= len && a + n <= |ram|
    ensures ram'[a..a + n] == ram[a..a + n]
  {
    hide Live;
    forall x: nat | a <= x < a + n
      ensures ram'[x] == ram[x]
    {
      assert Live(s, a, len);
    }
  }

  /** What becomes of a live block at a that needs a new place of want bytes: either this is refused, and nothing changes, or it
      has moved to r with its first n bytes; no byte of any other live block has changed. */
  ghost predicate Replaced(s: State, s': State, zp: nat, limit: nat, a: nat, want: nat, n: nat, r: Option<nat>, ram: seq<byte>, ram': seq<byte>) {
    && (r.None? <==> Refused(s, zp, limit, want, TheClass(want)))
    && (r.None? ==> s' == s && Keeps(s, ram, ram', None))
    && (r.Some? ==>
      && Moves(s, s', a, r.value, Served(want, limit, TheClass(want))) && Served(want, limit, TheClass(want)) >= want
      && Keeps(s, ram, ram', Some(a))
      && a + n <= |ram| && r.value + n <= |ram'| && ram'[r.value..r.value + n] == ram[a..a + n])
  }

  /** A new block for want bytes, the first n of the old one, and the old one freed. */
  method Move(h: Heap, a: nat, ghost len: nat, want: nat, n: nat, ghost ram: seq<byte>) returns (r: Option<nat>, ghost ram': seq<byte>)
    requires h.Valid() && |ram| == |h.usage| * PAGE && Live(h.Model(), a, len) && n <= len && n <= want
    modifies h, h.pages, h.pages.next, h.pages.page
    ensures h.Valid() && |h.usage| == old(|h.usage|) && |ram'| == |ram|
    ensures Replaced(old(h.Model()), h.Model(), h.zonePages, h.zoneLimit, a, want, n, r, ram, ram')
  {
    hide Inv, PageHeap.Linked, Adds, Drops, Live, Keeps, Moves, Served, Refused;
    ghost var s0 := h.Model();
    LiveDisjoint(s0, h.zonePages, RELEASE_THRESHOLD, a, len, a, len);
    r, ram' := Malloc(h, want, ram);
    SameSize(s0, ram, ram');
    if r.None? {
      return;
    }
    ghost var s1, b, m, ram1 := h.Model(), r.value, Served(want, h.zoneLimit, TheClass(want)), ram';
    StillLive(s0, s1, b, m, a, len);
    LiveDisjoint(s1, h.zonePages, RELEASE_THRESHOLD, b, m, b, m);
    KeptAt(s0, ram, ram1, a, len, n);
    ghost var ram2 := Copied(ram1, b, a, n);
    CopyKeeps(s1, h.zonePages, ram1, b, m, a, n);
    ram' := Free(h, a, len, ram2);
    ghost var s2 := h.Model();
    AddsThenDrops(s0, s1, s2, a, len, b, m);
    MovedKeeps(s0, s1, s2, ram, ram1, ram2, ram', a, b, m);
    SameSize(s2, ram2, ram');
    KeptAt(s2, ram2, ram', b, m, n);
    assert ram2[b..b + n] == ram1[a..a + n];
  }

  lemma SameSize(s: State, ram: seq<byte>, ram': seq<byte>)
    requires Keeps(s, ram, ram', None)
    ensures |ram'| == |ram|
  {
  }

  lemma StillLive(s: State, s': State, b: nat, m: nat, a: nat, len: nat)
    requires Adds(s, s', b, m) && Live(s, a, len)
    ensures Live(s', a, len) && Live(s', b, m)
  {
    hide Live;
  }

  lemma RoundedIs(size: nat, zi: nat)
    requires 1 <= size < 16384 && ClassOf(size, zi)
    ensures Rounded(size) == ChunkOf(zi) && size <= Rounded(size)
  {
    ClassesOrder(size, size, zi, TheClass(size));
  }

  /** The use that rt_realloc makes of zoneindex. */
  method RoundRequest(size: nat) returns (want: nat)
    requires size > 0
    ensures want == Rounded(size) && want >= size
  {
    if size >= 16384 {
      return size;
    }
    var zi, chunk := ZoneIndex(size);
    RoundedIs(size, zi);
    want := chunk;
  }

  /** Whether the block at a is a large one, how rt_realloc looks it up. */
  ghost predicate IsLarge(usage: seq<Usage>, a: nat) {
    a / PAGE < |usage| && usage[a / PAGE].Large?
  }

  /** The table entry of a live block, and the size that rt_realloc finds there or in the zone. */
  lemma OldSize(s: State, zp: nat, a: nat, len: nat) returns (p: nat)
    requires Inv(s, zp, RELEASE_THRESHOLD) && Live(s, a, len)
    ensures a / PAGE < |s.usage| && !s.usage[a / PAGE].Unused?
    ensures var u := s.usage[a / PAGE];
      && (u.Large? ==> u.pages * PAGE == len)
      && (u.Small? ==> p in s.zones && u.offset <= a / PAGE && a / PAGE - u.offset == p && s.zones[p].chunk == len)
  {
    var l;
    p, l := LiveHome(s, zp, RELEASE_THRESHOLD, a, len);
    TableFindsOwner(s, zp, RELEASE_THRESHOLD, p, a);
  }

  /** The bytes that a block has to have for a request: a large block is asked for as many, a chunk for a whole chunk. */
  ghost function Want(usage: seq<Usage>, a: nat, size: nat): nat {
    if IsLarge(usage, a) then size else Rounded(size)
  }

  /** rt_realloc */
  method RtRealloc(h: Heap, ptr: Option<nat>, ghost len: nat, size: nat, ghost ram: seq<byte>) returns (r: Option<nat>, ghost ram': seq<byte>)
    requires h.Valid() && |ram| == |h.usage| * PAGE && (ptr.Some? ==> Live(h.Model(), ptr.value, len))
    modifies h, h.pages, h.pages.next, h.pages.page
    ensures h.Valid() && |ram'| == |ram|
    ensures ptr.None? ==>
      && Keeps(old(h.Model()), ram, ram', None)
      && (r.None? <==> Refused(old(h.Model()), h.zonePages, h.zoneLimit, size, TheClass(size)))
      && (r.None? ==> h.Model() == old(h.Model()))
      && (r.Some? ==> Adds(old(h.Model()), h.Model(), r.value, Served(size, h.zoneLimit, TheClass(size))))
    ensures ptr.Some? && size == 0 ==> r.None? && Drops(old(h.Model()), h.Model(), ptr.value) && Keeps(h.Model(), ram, ram', None)
    ensures ptr.Some? && size > 0 ==>
      var want := Want(old(h.usage), ptr.value, size);
      && want >= size
      && (!IsLarge(old(h.usage), ptr.value) && want == len ==> r == ptr && h.Model() == old(h.Model()) && ram' == ram)
      && (IsLarge(old(h.usage), ptr.value) || want != len ==>
          Replaced(old(h.Model()), h.Model(), h.zonePages, h.zoneLimit, ptr.value, want, Min(len, size), r, ram, ram'))
  {
    hide Inv, PageHeap.Linked, Adds, Drops, Live, Keeps, Served, Refused, Replaced, Rounded, PageHeap.Valid, TheClass;
    if ptr.None? {
      r, ram' := Malloc(h, size, ram);
      SameSize(old(h.Model()), ram, ram');
      return;
    }
    var a := ptr.value;
    if size == 0 {
      ram' := Free(h, a, len, ram);
      SameSize(h.Model(), ram, ram');
      return None, ram';
    }
    ghost var p := OldSize(h.Model(), h.zonePages, a, len);
    var kup := h.usage[a / PAGE];
    if kup.Large? {
      var osize := kup.pages * PAGE;
      var n := if size > osize then osize else size;
      r, ram' := Move(h, a, len, size, n, ram);
      return;
    }
    var z := h.zones[a / PAGE - kup.offset];
    var want := RoundRequest(size);
    if z.chunk == want {
      return ptr, ram;
    }
    var n := if want > z.chunk then z.chunk else want;
    r, ram' := Move(h, a, len, want, n, ram);
    Fewer(old(h.Model()), h.Model(), h.zonePages, h.zoneLimit, a, want, n, Min(len, size), r, ram, ram');
  }

  lemma Fewer(s: State, s': State, zp: nat, limit: nat, a: nat, want: nat, n: nat, m: nat, r: Option<nat>, ram: seq<byte>, ram': seq<byte>)
    requires Replaced(s, s', zp, limit, a, want, n, r, ram, ram') && m <= n
    ensures Replaced(s, s', zp, limit, a, want, m, r, ram, ram')
  {
    hide Moves, Keeps, Refused, Served;
    if r.Some? {
      SliceFront(ram', r.value, r.value + n, r.value + m);
      SliceFront(ram, a, a + n, a + m);
    }
  }
}
