// The zone layer of slab.c on values: size classes, zones cut into chunks, the lists of
// zones with free chunks, the cache of empty zones and the page table.
module SlabZones {
  import opened Seqs
  import opened Words
  import opened SlabPages

  const PAGE: nat := 4096          // RT_MM_PAGE_SIZE
  const ZONES: nat := 72           // NZONES
  const ZONE_HEADER: nat := 36     // sizeof(slab_zone)
  const RELEASE_THRESHOLD: nat := 2

  // ---- size classes

  /** The chunk size of size class zi. */
  function ChunkOf(zi: nat): nat {
    if zi < 16 then (zi + 1) * 8
    else if zi < 24 then (zi - 7) * 16
    else if zi < 32 then (zi - 15) * 32
    else if zi < 40 then (zi - 23) * 64
    else if zi < 48 then (zi - 31) * 128
    else if zi < 56 then (zi - 39) * 256
    else if zi < 64 then (zi - 47) * 512
    else (zi - 55) * 1024
  }

  /** zi is the class of n bytes: the first whose chunks hold them. */
  predicate ClassOf(n: nat, zi: nat) {
    zi < ZONES && n <= ChunkOf(zi) && (zi > 0 ==> ChunkOf(zi - 1) < n)
  }

  /** The requests that are rounded to multiples of step. */
  predicate Range(n: nat, step: nat) {
    if step == 8 then 1 <= n < 128
    else if step == 1024 then 8192 <= n < 16384
    else (step == 16 || step == 32 || step == 64 || step == 128 || step == 256 || step == 512) && 8 * step <= n < 16 * step
  }

  /** The class that follows from multiples q of step. */
  function ClassAt(q: nat, step: nat): int {
    if step == 8 then q - 1
    else if step == 16 then q + 7
    else if step == 32 then q + 15
    else if step == 64 then q + 23
    else if step == 128 then q + 31
    else if step == 256 then q + 39
    else if step == 512 then q + 47
    else q + 55
  }

  lemma StepIsPower(n: nat, step: nat)
    requires Range(n, step)
    ensures PowerOfTwo(step) && 8 <= step <= 1024 && n < 16384
  {
  }

  lemma Quotient(n: nat, step: nat) returns (q: nat)
    requires Range(n, step)
    ensures RoundUp(n, step) == q * step && n <= q * step < n + step
    ensures q == RoundUp(n, step) / step
  {
    RoundUpBounds(n, step);
    q := RoundUp(n, step) / step;
  }

  lemma ClassOfQuotient(n: nat, step: nat, q: nat)
    requires Range(n, step) && n <= q * step < n + step
    ensures ClassAt(q, step) >= 0 && ClassOf(n, ClassAt(q, step)) && q * step == ChunkOf(ClassAt(q, step))
  {
    assert step == 8 ==> 1 <= q <= 16;
    assert step != 8 ==> 8 <= q <= 16;
  }

  /** Rounding by the mask of its range takes a request to the chunk size of its class. */
  lemma Lands(n: nat, step: nat)
    requires Range(n, step)
    ensures var r := And(n + (step - 1), Complement(step - 1));
      ClassAt(r / step, step) >= 0 && ClassOf(n, ClassAt(r / step, step)) && r == ChunkOf(ClassAt(r / step, step))
  {
    hide And, PowerOfTwo, RoundUp, Range, ClassAt, ClassOf, ChunkOf;
    StepIsPower(n, step);
    RoundUpMasks(n, step);
    var q := Quotient(n, step);
    ClassOfQuotient(n, step, q);
  }

  /** zoneindex; size is what *bytes becomes. */
  method ZoneIndex(bytes: nat) returns (zi: int, size: nat)
    requires 1 <= bytes <= 16383
    ensures zi >= 0 && ClassOf(bytes, zi) && size == ChunkOf(zi)
  {
    hide And, Complement, ClassOf, ChunkOf;
    if bytes < 128 {
      Lands(bytes, 8);
      size := And(bytes + 7, Complement(7));
      zi := size / 8 - 1;
    } else if bytes < 256 {
      Lands(bytes, 16);
      size := And(bytes + 15, Complement(15));
      zi := size / 16 + 7;
    } else if bytes < 8192 {
      if bytes < 512 {
        Lands(bytes, 32);
        size := And(bytes + 31, Complement(31));
        zi := size / 32 + 15;
      } else if bytes < 1024 {
        Lands(bytes, 64);
        size := And(bytes + 63, Complement(63));
        zi := size / 64 + 23;
      } else if bytes < 2048 {
        Lands(bytes, 128);
        size := And(bytes + 127, Complement(127));
        zi := size / 128 + 31;
      } else if bytes < 4096 {
        Lands(bytes, 256);
        size := And(bytes + 255, Complement(255));
        zi := size / 256 + 39;
      } else {
        Lands(bytes, 512);
        size := And(bytes + 511, Complement(511));
        zi := size / 512 + 47;
      }
    } else {
      Lands(bytes, 1024);
      size := And(bytes + 1023, Complement(1023));
      zi := size / 1024 + 55;
    }
  }

  lemma {:induction false} ChunksGrow(i: nat, j: nat)
    requires i < j < ZONES
    ensures ChunkOf(i) < ChunkOf(j)
    decreases j - i
  {
    assert ChunkOf(j - 1) < ChunkOf(j);
    if i < j - 1 { ChunksGrow(i, j - 1); }
  }

  /** The class is unique, grows with the request, and two requests share it exactly when they are rounded to the same size. */
  lemma ClassesOrder(m: nat, n: nat, i: nat, j: nat)
    requires ClassOf(m, i) && ClassOf(n, j)
    ensures m <= n ==> i <= j
    ensures m == n ==> i == j
    ensures i == j <==> ChunkOf(i) == ChunkOf(j)
  {
    if i < j {
      ChunksGrow(i, j);
      if i < j - 1 { ChunksGrow(i, j - 1); }
    } else if j < i {
      ChunksGrow(j, i);
      if j < i - 1 { ChunksGrow(j, i - 1); }
    }
  }

  // ---- zones

  /** An in-band zone header; freed holds the addresses on z_freechunk. */
  datatype Zone = Zone(nfree: int, nmax: int, base: nat, uindex: int, chunk: nat, index: nat, freed: seq<nat>)

  datatype Usage = Unused | Small(offset: nat) | Large(pages: nat)

  /** zones, lists and cached hold zones by their first page; large holds live page runs. */
  datatype State = State(zones: map<nat, Zone>, lists: map<nat, seq<nat>>, cached: seq<nat>, usage: seq<Usage>,
                         large: map<nat, nat>, runs: seq<Run>)

  /** The address of chunk i. */
  function Slot(z: Zone, i: nat): nat {
    z.base + i * z.chunk
  }

  /** The address of a chunk that has been handed out at least once. */
  ghost predicate Carved(z: Zone, a: nat) {
    exists i: nat :: i <= z.uindex && a == Slot(z, i)
  }

  ghost predicate LiveIn(z: Zone, a: nat) {
    Carved(z, a) && a !in z.freed
  }

  /** The offset of the first chunk from its zone, which aligns chunks of power-of-two size. */
  function FirstOffset(size: nat): nat
    requires size > 0
  {
    if PowerOfTwo(size) then RoundUp(ZONE_HEADER, size) else RoundUp(ZONE_HEADER, 8)
  }

  /** The source tells the two cases apart, and rounds, with bit operations. */
  lemma FirstOffsetMasks(size: nat)
    requires 0 < size <= 16384
    ensures FirstOffset(size) ==
      if Or(size, size - 1) + 1 == 2 * size then And(ZONE_HEADER + (size - 1), Complement(size - 1))
      else And(ZONE_HEADER + 7, Complement(7))
  {
    hide And, PowerOfTwo;
    PowerTest(size);
    if PowerOfTwo(size) { RoundUpMasks(ZONE_HEADER, size); }
    StepIsPower(1, 8);
    RoundUpMasks(ZONE_HEADER, 8);
  }

  ghost predicate Based(z: Zone, p: nat) {
    z.chunk > 0 && z.base == p * PAGE + FirstOffset(z.chunk)
  }

  /** The zone at page p of a heap with zones of zonePages pages. */
  ghost predicate ZoneOk(z: Zone, p: nat, zonePages: nat) {
    && z.index < ZONES && z.chunk == ChunkOf(z.index)
    && 0 <= z.uindex < z.nmax
    && Based(z, p)
    && p * PAGE + ZONE_HEADER <= z.base && z.base + z.nmax * z.chunk <= (p + zonePages) * PAGE
    && Distinct(z.freed) && (forall a :: a in z.freed ==> Carved(z, a))
    && z.nfree == (z.nmax - 1 - z.uindex) + |z.freed|
  }

  lemma Distribute(i: nat, k: nat, c: nat)
    ensures (i + 1 + k) * c == i * c + c + k * c && k * c >= 0
  {
  }

  /** Chunks do not overlap. */
  lemma SlotsApart(z: Zone, i: nat, j: nat)
    requires i < j
    ensures Slot(z, i) + z.chunk <= Slot(z, j)
  {
    Distribute(i, j - i - 1, z.chunk);
  }

  /** A carved chunk lies inside the zone, behind its header. */
  lemma SlotInside(z: Zone, p: nat, zonePages: nat, i: nat)
    requires ZoneOk(z, p, zonePages) && i < z.nmax
    ensures p * PAGE + ZONE_HEADER <= Slot(z, i) && Slot(z, i) + z.chunk <= (p + zonePages) * PAGE
  {
    hide Slot, Carved, ChunkOf;
    SlotFrom(z, i);
    if i < z.nmax - 1 { SlotsApart(z, i, z.nmax - 1); }
    LastSlot(z, z.nmax);
  }

  lemma SlotFrom(z: Zone, i: nat)
    ensures z.base <= Slot(z, i)
  {
  }

  lemma LastSlot(z: Zone, n: int)
    requires n >= 1
    ensures Slot(z, n - 1) + z.chunk == z.base + n * z.chunk
  {
  }

  /** Two live chunks of a zone are the same or disjoint, and both lie in it. */
  lemma LiveApart(z: Zone, p: nat, zonePages: nat, a: nat, b: nat)
    requires ZoneOk(z, p, zonePages) && LiveIn(z, a) && LiveIn(z, b)
    ensures a == b || a + z.chunk <= b || b + z.chunk <= a
    ensures p * PAGE + ZONE_HEADER <= a && a + z.chunk <= (p + zonePages) * PAGE
  {
    var i: nat :| i <= z.uindex && a == Slot(z, i);
    var j: nat :| j <= z.uindex && b == Slot(z, j);
    if i < j { SlotsApart(z, i, j); }
    if j < i { SlotsApart(z, j, i); }
    SlotInside(z, p, zonePages, i);
  }

  // ---- counting

  function Slots(z: Zone, n: nat): set<nat> {
    if n == 0 then {} else Slots(z, n - 1) + {Slot(z, n - 1)}
  }

  lemma {:induction false} InSlots(z: Zone, n: nat, i: nat)
    requires i < n
    ensures Slot(z, i) in Slots(z, n)
  {
    hide Slot;
    if i < n - 1 { InSlots(z, n - 1, i); }
  }

  lemma {:induction false} SlotOf(z: Zone, n: nat, a: nat) returns (i: nat)
    requires a in Slots(z, n)
    ensures i < n && a == Slot(z, i)
  {
    hide Slot;
    if a == Slot(z, n - 1) {
      i := n - 1;
    } else {
      i := SlotOf(z, n - 1, a);
    }
  }

  lemma {:induction false} SlotsCount(z: Zone, n: nat)
    requires z.chunk > 0
    ensures |Slots(z, n)| == n
  {
    hide Slot;
    if n > 0 {
      SlotsCount(z, n - 1);
      if Slot(z, n - 1) in Slots(z, n - 1) {
        var i := SlotOf(z, n - 1, Slot(z, n - 1));
        SlotsApart(z, i, n - 1);
      }
    }
  }

  lemma ChunkPositive(zi: nat)
    requires zi < ZONES
    ensures 8 <= ChunkOf(zi) <= 16384
  {
  }

  /** A zone counts as entirely free exactly when none of its chunks is live. */
  lemma EmptyExactly(z: Zone, p: nat, zonePages: nat)
    requires ZoneOk(z, p, zonePages)
    ensures z.nfree <= z.nmax
    ensures z.nfree == z.nmax <==> forall a :: !LiveIn(z, a)
  {
    hide Slot, Slots;
    ChunkPositive(z.index);
    var all, f := Slots(z, z.uindex + 1), Elements(z.freed);
    SlotsCount(z, z.uindex + 1);
    SizeOfElements(z.freed);
    forall a | a in f
      ensures a in all
    {
      var i: nat :| i <= z.uindex && a == Slot(z, i);
      InSlots(z, z.uindex + 1, i);
    }
    SubsetSize(f, all);
    if |f| == |all| {
      SameSize(f, all);
      forall a
        ensures !LiveIn(z, a)
      {
        if Carved(z, a) {
          var i: nat :| i <= z.uindex && a == Slot(z, i);
          InSlots(z, z.uindex + 1, i);
        }
      }
    } else if forall a :: !LiveIn(z, a) {
      forall a | a in all
        ensures a in f
      {
        var i := SlotOf(z, z.uindex + 1, a);
        assert Carved(z, a) && !LiveIn(z, a);
      }
      SubsetSize(all, f);
    }
  }

  lemma SameSize<T>(a: set<T>, b: set<T>)
    requires a <= b && |a| == |b|
    ensures a == b
  {
    if x :| x in b && x !in a {
      SubsetSize(a, b - {x});
    }
  }

  // ---- alignment

  /** Chunks of a power-of-two size lie at multiples of it, counted from their zone. */
  lemma ChunkAligned(z: Zone, p: nat, zonePages: nat, a: nat)
    requires ZoneOk(z, p, zonePages) && LiveIn(z, a) && PowerOfTwo(z.chunk)
    ensures z.chunk > 0 && a >= p * PAGE && (a - p * PAGE) % z.chunk == 0
  {
    hide PowerOfTwo, ChunkOf;
    var i: nat :| i <= z.uindex && a == Slot(z, i);
    RoundUpBounds(ZONE_HEADER, z.chunk);
    Multiple(i, z.chunk);
    AddMultiple(RoundUp(ZONE_HEADER, z.chunk), i * z.chunk, z.chunk);
    assert i * z.chunk >= 0;
  }

  // ---- what rt_malloc and rt_free do to one zone

  /** The chunk the next allocation gets: fresh ones first, then the free list. */
  function NextChunk(z: Zone): nat
    requires z.uindex + 1 != z.nmax ==> z.uindex + 1 >= 0
    requires z.uindex + 1 == z.nmax ==> z.freed != []
  {
    if z.uindex + 1 != z.nmax then Slot(z, z.uindex + 1) else z.freed[0]
  }

  function TakeChunk(z: Zone): Zone
    requires z.uindex + 1 == z.nmax ==> z.freed != []
  {
    if z.uindex + 1 != z.nmax then z.(nfree := z.nfree - 1, uindex := z.uindex + 1)
    else z.(nfree := z.nfree - 1, freed := z.freed[1..])
  }

  function GiveChunk(z: Zone, a: nat): Zone {
    z.(nfree := z.nfree + 1, freed := [a] + z.freed)
  }

  /** In a zone all of whose chunks have been out, the one given back last is the next to go. */
  lemma LastGivenFirst(z: Zone, p: nat, zonePages: nat, a: nat)
    requires ZoneOk(z, p, zonePages) && LiveIn(z, a) && z.uindex + 1 == z.nmax
    ensures NextChunk(GiveChunk(z, a)) == a && TakeChunk(GiveChunk(z, a)) == z
  {
    var z' := GiveChunk(z, a);
    assert z'.freed[1..] == z.freed;
  }

  lemma TakeKeepsZone(z: Zone, p: nat, zonePages: nat)
    requires ZoneOk(z, p, zonePages) && z.nfree > 0
    ensures z.uindex + 1 == z.nmax ==> z.freed != []
    ensures ZoneOk(TakeChunk(z), p, zonePages) && !LiveIn(z, NextChunk(z))
    ensures forall a :: LiveIn(TakeChunk(z), a) <==> LiveIn(z, a) || a == NextChunk(z)
  {
    ChunkPositive(z.index);
    var z' := TakeChunk(z);
    if z.uindex + 1 != z.nmax {
      var fresh' := Slot(z, z.uindex + 1);
      assert !Carved(z, fresh') by {
        if i: nat :| i <= z.uindex && fresh' == Slot(z, i) { SlotsApart(z, i, z.uindex + 1); }
      }
      forall a
        ensures Carved(z', a) <==> Carved(z, a) || a == fresh'
      {
        CarvedOneMore(z, a);
      }
    } else {
      TailMembers(z.freed);
      forall a
        ensures Carved(z', a) <==> Carved(z, a)
      {
        SameCarved(z, z', a);
      }
    }
  }

  lemma CarvedOneMore(z: Zone, a: nat)
    requires z.uindex + 1 >= 0
    ensures Carved(z.(nfree := z.nfree - 1, uindex := z.uindex + 1), a) <==> Carved(z, a) || a == Slot(z, z.uindex + 1)
  {
    var z' := z.(nfree := z.nfree - 1, uindex := z.uindex + 1);
    assert forall i: nat :: Slot(z', i) == Slot(z, i);
    if a == Slot(z, z.uindex + 1) { assert a == Slot(z', z.uindex + 1); }
    if i: nat :| i <= z.uindex && a == Slot(z, i) { assert a == Slot(z', i); }
    if i: nat :| i <= z'.uindex && a == Slot(z', i) { assert a == Slot(z, i); }
  }

  lemma SameCarved(z: Zone, z': Zone, a: nat)
    requires z'.base == z.base && z'.chunk == z.chunk && z'.uindex == z.uindex
    ensures Carved(z', a) <==> Carved(z, a)
  {
    if i: nat :| i <= z.uindex && a == Slot(z, i) { assert a == Slot(z', i); }
    if i: nat :| i <= z.uindex && a == Slot(z', i) { assert a == Slot(z, i); }
  }

  lemma GiveKeepsZone(z: Zone, p: nat, zonePages: nat, a: nat)
    requires ZoneOk(z, p, zonePages) && LiveIn(z, a)
    ensures ZoneOk(GiveChunk(z, a), p, zonePages)
    ensures forall b :: LiveIn(GiveChunk(z, a), b) <==> LiveIn(z, b) && b != a
  {
    var z' := GiveChunk(z, a);
    forall b
      ensures Carved(z', b) <==> Carved(z, b)
    {
      SameCarved(z, z', b);
    }
  }
}
