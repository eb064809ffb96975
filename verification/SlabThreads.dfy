// The slab heap under concurrent calls: rt_malloc and rt_free give up their lock around
// the page allocator, so every locked part and every call between two is its own step.
module SlabThreads {
  import opened Seqs
  import opened SlabPages
  import opened SlabZones
  import opened SlabLaws

  type Tid = nat

  /** Pages on their way from rt_page_alloc to a zone or a large block, or on their way to rt_page_free. */
  datatype Hand = ForZone(p: nat, zi: nat) | ForLarge(p: nat, len: nat) | Returning(p: nat, len: nat)

  function Len(h: Hand, zp: nat): nat {
    if h.ForZone? then zp else h.len
  }

  datatype Shared = Shared(s: State, hands: map<Tid, Hand>)

  datatype Action =
    | TakeListed(t: Tid, zi: nat)          // rt_malloc with a zone on the list
    | TakeCached(t: Tid, zi: nat)          // rt_malloc with a cached zone
    | GetZonePages(t: Tid, zi: nat)        // rt_malloc: rt_page_alloc for a zone, the lock given up
    | OpenZone(t: Tid)                     // and the rest, the lock taken again
    | GetLargePages(t: Tid, len: nat)      // rt_malloc: rt_page_alloc for a large block
    | EnterLarge(t: Tid)                   // and its entry in the page table
    | FreeChunk(t: Tid, p: nat, a: nat)    // rt_free of a chunk, up to where the lock is given up
    | FreeLarge(t: Tid, p: nat)            // rt_free of a large block, up to there
    | PutPages(t: Tid)                     // rt_page_free, if pages are to be released

  // ---- steps

  function Marks(usage: seq<Usage>, p: nat, len: nat): (u: seq<Usage>)
    ensures |u| == |usage|
  {
    seq(|usage|, i requires 0 <= i < |usage| => if p <= i < p + len then Small(i - p) else usage[i])
  }

  function Unmarks(usage: seq<Usage>, p: nat, len: nat): (u: seq<Usage>)
    ensures |u| == |usage|
  {
    seq(|usage|, i requires 0 <= i < |usage| => if p <= i < p + len then Unused else usage[i])
  }

  /** Zone p is empty and not alone on its list. */
  predicate Retires(s: State, p: nat)
    requires p in s.zones && s.zones[p].index in s.lists
  {
    var l := s.lists[s.zones[p].index];
    s.zones[p].nfree == s.zones[p].nmax && l != [] && (l[|l| - 1] != p || l[0] != p)
  }

  ghost predicate Enabled(g: Shared, a: Action, zp: nat) {
    var s := g.s;
    match a
    case TakeListed(t, zi) => t !in g.hands && zi < ZONES && zi in s.lists && s.lists[zi] != []
    case TakeCached(t, zi) => t !in g.hands && Fits(zi, zp) && zi in s.lists && s.lists[zi] == [] && s.cached != []
    case GetZonePages(t, zi) => t !in g.hands && Fits(zi, zp) && SlabPages.FirstFit(s.runs, 0, zp) < |s.runs|
    case OpenZone(t) => t in g.hands && g.hands[t].ForZone? && g.hands[t].zi in s.lists
    case GetLargePages(t, len) => t !in g.hands && len > 0 && SlabPages.FirstFit(s.runs, 0, len) < |s.runs|
    case EnterLarge(t) => t in g.hands && g.hands[t].ForLarge?
    case FreeChunk(t, p, a) => t !in g.hands && LiveSmall(s, p, a)
    case FreeLarge(t, p) => t !in g.hands && p in s.large
    case PutPages(t) => t in g.hands && g.hands[t].Returning?
  }

  /** Requests of the class are small enough for a zone. */
  predicate Fits(zi: nat, zp: nat) {
    zi < ZONES && ChunkOf(zi) * 4 <= zp * PAGE && 8 <= zp
  }

  ghost predicate Disjoint(a: Hand, b: Hand, zp: nat) {
    a.p + Len(a, zp) <= b.p || b.p + Len(b, zp) <= a.p
  }

  ghost predicate HandsOk(g: Shared, zp: nat) {
    && (forall t :: t in g.hands ==> Spare(g.s, zp, g.hands[t].p, Len(g.hands[t], zp)))
    && (forall t :: t in g.hands && g.hands[t].ForZone? ==> Fits(g.hands[t].zi, zp))
    && (forall t, u :: t in g.hands && u in g.hands && t != u ==> Disjoint(g.hands[t], g.hands[u], zp))
  }

  /** Page x belongs to a zone or to a large block. */
  ghost predicate Owned(s: State, zp: nat, x: nat) {
    exists q: nat, m: nat :: Holds(s, zp, q, m) && q <= x < q + m
  }

  predicate Covered(h: Hand, zp: nat, x: nat) {
    h.p <= x < h.p + Len(h, zp)
  }

  ghost predicate InHands(hands: map<Tid, Hand>, zp: nat, x: nat) {
    exists t :: t in hands && Covered(hands[t], zp, x)
  }

  /** No page from base on is lost. */
  ghost predicate Accounted(g: Shared, zp: nat, base: nat) {
    forall x: nat :: base <= x < |g.s.usage| ==> In(g.s.runs, x) || Owned(g.s, zp, x) || InHands(g.hands, zp, x)
  }

  ghost predicate Safe(g: Shared, zp: nat, base: nat) {
    Inv(g.s, zp, RELEASE_THRESHOLD) && HandsOk(g, zp) && Accounted(g, zp, base)
  }

  /** The part of rt_free behind the return of the chunk: an empty zone goes to the cache, and from a full cache one zone's
      pages go into the hands of the thread. */
  function Settle(s: State, p: nat, zp: nat): (State, Option<Hand>)
    requires p in s.zones && s.zones[p].index in s.lists
  {
    if !Retires(s, p) then (s, None)
    else
      var r := Retire(s, p);
      if |r.cached| <= RELEASE_THRESHOLD then (r, None)
      else
        var q := r.cached[0];
        (Uncache(r).(usage := Unmarks(r.usage, q, zp)), Some(Returning(q, zp)))
  }

  function Hold(hands: map<Tid, Hand>, t: Tid, h: Option<Hand>): map<Tid, Hand> {
    if h.Some? then hands[t := h.value] else hands
  }

  ghost function Next(g: Shared, a: Action, zp: nat): Shared
    requires Inv(g.s, zp, RELEASE_THRESHOLD) && HandsOk(g, zp) && Enabled(g, a, zp)
  {
    var s := g.s;
    match a
    case TakeListed(t, zi) =>
      ServeKeepsInv(s, zp, RELEASE_THRESHOLD, zi);
      g.(s := Serve(s, zi))
    case TakeCached(t, zi) => g.(s := Open(Uncache(s), zp, s.cached[0], zi))
    case GetZonePages(t, zi) =>
      var k := SlabPages.FirstFit(s.runs, 0, zp);
      Shared(s.(runs := AllocAt(s.runs, k, zp)), g.hands[t := ForZone(s.runs[k].at, zi)])
    case OpenZone(t) =>
      var h := g.hands[t];
      Shared(Open(s.(usage := Marks(s.usage, h.p, zp)), zp, h.p, h.zi), g.hands - {t})
    case GetLargePages(t, len) =>
      var k := SlabPages.FirstFit(s.runs, 0, len);
      Shared(s.(runs := AllocAt(s.runs, k, len)), g.hands[t := ForLarge(s.runs[k].at, len)])
    case EnterLarge(t) =>
      var h := g.hands[t];
      Shared(TakeLarge(s, h.p, h.len), g.hands - {t})
    case FreeChunk(t, p, a) =>
      GiveKeepsInv(s, zp, RELEASE_THRESHOLD, p, a);
      var r := Settle(Give(s, p, a), p, zp);
      Shared(r.0, Hold(g.hands, t, r.1))
    case FreeLarge(t, p) =>
      DropLargeSpares(s, zp, RELEASE_THRESHOLD, p);
      Shared(DropLarge(s, p), g.hands[t := Returning(p, s.large[p])])
    case PutPages(t) =>
      var h := g.hands[t];
      Shared(s.(runs := Free(s.runs, h.p, h.len)), g.hands - {t})
  }

  // ---- pages that change hands

  /** The zones and large blocks are the same, those in gone aside, and those in come besides. */
  ghost predicate HoldsBut(s: State, s': State, zp: nat, gone: Option<Hand>, come: Option<Hand>) {
    forall q: nat, m: nat :: Holds(s', zp, q, m) <==>
      (Holds(s, zp, q, m) && (gone.Some? ==> q != gone.value.p)) || (come.Some? && q == come.value.p && m == Len(come.value, zp))
  }

  /** The free pages are the same, those in taken aside, and those in given besides. */
  ghost predicate FreeBut(s: State, s': State, zp: nat, taken: Option<Hand>, given: Option<Hand>) {
    forall x: nat :: In(s'.runs, x) <==>
      (In(s.runs, x) && !(taken.Some? && Covered(taken.value, zp, x))) || (given.Some? && Covered(given.value, zp, x))
  }

  /** Pages that zones and large blocks keep. */
  lemma StillOwned(s: State, s': State, zp: nat, gone: Option<Hand>, come: Option<Hand>, x: nat)
    requires HoldsBut(s, s', zp, gone, come) && Owned(s, zp, x) && (gone.Some? ==> forall m: nat :: Holds(s, zp, gone.value.p, m) ==> m == Len(gone.value, zp))
    ensures Owned(s', zp, x) || (gone.Some? && Covered(gone.value, zp, x))
  {
    hide Holds;
    var q: nat, m: nat :| Holds(s, zp, q, m) && q <= x < q + m;
    if gone.None? || q != gone.value.p { assert Holds(s', zp, q, m); }
  }

  lemma NowOwned(s: State, s': State, zp: nat, h: Hand, x: nat)
    requires HoldsBut(s, s', zp, None, Some(h)) && Covered(h, zp, x)
    ensures Owned(s', zp, x)
  {
    hide Holds;
    assert Holds(s', zp, h.p, Len(h, zp));
  }

  lemma StillInHands(hands: map<Tid, Hand>, hands': map<Tid, Hand>, zp: nat, t: Tid, x: nat)
    requires InHands(hands, zp, x)
    requires forall u :: u in hands && u != t ==> u in hands' && hands'[u] == hands[u]
    ensures InHands(hands', zp, x) || (t in hands && Covered(hands[t], zp, x))
  {
    var u :| u in hands && Covered(hands[u], zp, x);
    if u != t { assert hands'[u] == hands[u]; }
  }

  lemma NowInHands(hands: map<Tid, Hand>, zp: nat, t: Tid, x: nat)
    requires t in hands && Covered(hands[t], zp, x)
    ensures InHands(hands, zp, x)
  {
  }

  /** The hands of the others stay right. */
  lemma SparesStay(s: State, s': State, zp: nat, h: Hand, come: Option<Hand>, given: Option<Hand>)
    requires Spare(s, zp, h.p, Len(h, zp)) && |s'.usage| == |s.usage|
    requires HoldsBut(s, s', zp, None, come) && FreeBut(s, s', zp, None, given)
    requires (come.Some? ==> Disjoint(h, come.value, zp)) && (given.Some? ==> Disjoint(h, given.value, zp))
    ensures Spare(s', zp, h.p, Len(h, zp))
  {
    hide Holds, In;
  }

  lemma SparesLess(s: State, s': State, zp: nat, h: Hand, gone: Option<Hand>, taken: Option<Hand>)
    requires Spare(s, zp, h.p, Len(h, zp)) && |s'.usage| == |s.usage|
    requires HoldsBut(s, s', zp, gone, None) && FreeBut(s, s', zp, taken, None)
    ensures Spare(s', zp, h.p, Len(h, zp))
  {
    hide Holds, In;
  }

  /** A step that keeps what all threads hold in their hands. */
  lemma SameHands(g: Shared, s': State, zp: nat, base: nat)
    requires Safe(g, zp, base) && Inv(s', zp, RELEASE_THRESHOLD) && |s'.usage| == |g.s.usage|
    requires HoldsBut(g.s, s', zp, None, None) && FreeBut(g.s, s', zp, None, None)
    ensures Safe(g.(s := s'), zp, base)
  {
    hide Inv, HoldsBut, Owned, InHands, Spare, In;
    forall t | t in g.hands
      ensures Spare(s', zp, g.hands[t].p, Len(g.hands[t], zp))
    {
      SparesLess(g.s, s', zp, g.hands[t], None, None);
    }
    forall x: nat | base <= x < |s'.usage|
      ensures In(s'.runs, x) || Owned(s', zp, x) || InHands(g.hands, zp, x)
    {
      if Owned(g.s, zp, x) { StillOwned(g.s, s', zp, None, None, x); }
    }
  }

  /** Free pages are in nobody's hands. */
  lemma FreeApart(s: State, zp: nat, h: Hand, u: Hand)
    requires Len(h, zp) > 0 && (forall x: nat :: Covered(h, zp, x) ==> In(s.runs, x)) && Spare(s, zp, u.p, Len(u, zp))
    ensures Disjoint(h, u, zp)
  {
    var x := if h.p < u.p then u.p else h.p;
    assert Covered(h, zp, x) ==> In(s.runs, x);
  }

  /** Free pages come into the hands of thread t. */
  lemma PagesTaken(g: Shared, s': State, t: Tid, h: Hand, zp: nat, base: nat)
    requires Safe(g, zp, base) && t !in g.hands && Inv(s', zp, RELEASE_THRESHOLD) && |s'.usage| == |g.s.usage|
    requires HoldsBut(g.s, s', zp, None, None) && FreeBut(g.s, s', zp, Some(h), None)
    requires Spare(s', zp, h.p, Len(h, zp)) && (forall x: nat :: Covered(h, zp, x) ==> In(g.s.runs, x)) && (h.ForZone? ==> Fits(h.zi, zp))
    ensures Safe(Shared(s', g.hands[t := h]), zp, base)
  {
    hide Inv, HoldsBut, Owned, InHands, Spare, In, Fits;
    var hands := g.hands[t := h];
    SpareLength(s', zp, h);
    forall u | u in g.hands
      ensures Disjoint(h, g.hands[u], zp) && Spare(s', zp, g.hands[u].p, Len(g.hands[u], zp))
    {
      FreeApart(g.s, zp, h, g.hands[u]);
      SparesLess(g.s, s', zp, g.hands[u], None, Some(h));
    }
    forall x: nat | base <= x < |s'.usage|
      ensures In(s'.runs, x) || Owned(s', zp, x) || InHands(hands, zp, x)
    {
      if Owned(g.s, zp, x) { StillOwned(g.s, s', zp, None, None, x); }
      if InHands(g.hands, zp, x) { StillInHands(g.hands, hands, zp, t, x); }
      if Covered(h, zp, x) { NowInHands(hands, zp, t, x); }
    }
  }

  lemma SpareLength(s: State, zp: nat, h: Hand)
    requires Spare(s, zp, h.p, Len(h, zp))
    ensures Len(h, zp) > 0
  {
  }

  /** Neither are the pages of a zone or a large block. */
  lemma HeldApart(s: State, zp: nat, h: Hand, u: Hand)
    requires Holds(s, zp, h.p, Len(h, zp)) && Spare(s, zp, u.p, Len(u, zp))
    ensures Disjoint(h, u, zp)
  {
  }

  /** A zone or a large block gives its pages into the hands of thread t. */
  lemma PagesReleased(g: Shared, s': State, t: Tid, h: Hand, zp: nat, base: nat)
    requires Safe(g, zp, base) && t !in g.hands && !h.ForZone? && Inv(s', zp, RELEASE_THRESHOLD) && |s'.usage| == |g.s.usage|
    requires HoldsBut(g.s, s', zp, Some(h), None) && FreeBut(g.s, s', zp, None, None)
    requires Spare(s', zp, h.p, Len(h, zp)) && Holds(g.s, zp, h.p, Len(h, zp))
    requires forall m: nat :: Holds(g.s, zp, h.p, m) ==> m == Len(h, zp)
    ensures Safe(Shared(s', g.hands[t := h]), zp, base)
  {
    hide Inv, HoldsBut, Owned, InHands, In, Holds, Spare, Fits;
    var hands := g.hands[t := h];
    forall u | u in g.hands
      ensures Disjoint(h, g.hands[u], zp) && Spare(s', zp, g.hands[u].p, Len(g.hands[u], zp))
    {
      HeldApart(g.s, zp, h, g.hands[u]);
      SparesLess(g.s, s', zp, g.hands[u], Some(h), None);
    }
    forall x: nat | base <= x < |s'.usage|
      ensures In(s'.runs, x) || Owned(s', zp, x) || InHands(hands, zp, x)
    {
      if Owned(g.s, zp, x) { StillOwned(g.s, s', zp, Some(h), None, x); }
      if InHands(g.hands, zp, x) { StillInHands(g.hands, hands, zp, t, x); }
      if Covered(h, zp, x) { NowInHands(hands, zp, t, x); }
    }
  }

  /** The pages in the hands of thread t become a zone or a large block. */
  lemma PagesUsed(g: Shared, s': State, t: Tid, zp: nat, base: nat)
    requires Safe(g, zp, base) && t in g.hands && Inv(s', zp, RELEASE_THRESHOLD) && |s'.usage| == |g.s.usage|
    requires HoldsBut(g.s, s', zp, None, Some(g.hands[t])) && FreeBut(g.s, s', zp, None, None)
    ensures Safe(Shared(s', g.hands - {t}), zp, base)
  {
    hide Inv, HoldsBut, Owned, InHands, In, Spare, Disjoint, Fits;
    var h, hands := g.hands[t], g.hands - {t};
    forall u | u in hands
      ensures Spare(s', zp, hands[u].p, Len(hands[u], zp))
    {
      assert Disjoint(g.hands[u], h, zp);
      SparesStay(g.s, s', zp, g.hands[u], Some(h), None);
    }
    forall x: nat | base <= x < |s'.usage|
      ensures In(s'.runs, x) || Owned(s', zp, x) || InHands(hands, zp, x)
    {
      if Owned(g.s, zp, x) { StillOwned(g.s, s', zp, None, Some(h), x); }
      if InHands(g.hands, zp, x) { StillInHands(g.hands, hands, zp, t, x); }
      if Covered(h, zp, x) { NowOwned(g.s, s', zp, h, x); }
    }
  }

  /** The pages in the hands of thread t become free. */
  lemma PagesReturned(g: Shared, s': State, t: Tid, zp: nat, base: nat)
    requires Safe(g, zp, base) && t in g.hands && Inv(s', zp, RELEASE_THRESHOLD) && |s'.usage| == |g.s.usage|
    requires HoldsBut(g.s, s', zp, None, None) && FreeBut(g.s, s', zp, None, Some(g.hands[t]))
    ensures Safe(Shared(s', g.hands - {t}), zp, base)
  {
    hide Inv, HoldsBut, Owned, InHands, In, Spare, Disjoint, Fits;
    var h, hands := g.hands[t], g.hands - {t};
    forall u | u in hands
      ensures Spare(s', zp, hands[u].p, Len(hands[u], zp))
    {
      assert Disjoint(g.hands[u], h, zp);
      SparesStay(g.s, s', zp, g.hands[u], None, Some(h));
    }
    forall x: nat | base <= x < |s'.usage|
      ensures In(s'.runs, x) || Owned(s', zp, x) || InHands(hands, zp, x)
    {
      if Owned(g.s, zp, x) { StillOwned(g.s, s', zp, None, None, x); }
      if InHands(g.hands, zp, x) { StillInHands(g.hands, hands, zp, t, x); }
    }
  }

  // ---- each step

  lemma SameZones(s: State, s': State, zp: nat)
    requires s'.zones.Keys == s.zones.Keys && s'.cached == s.cached && s'.large == s.large && s'.runs == s.runs
    ensures HoldsBut(s, s', zp, None, None) && FreeBut(s, s', zp, None, None)
  {
    assert forall q: nat :: IsZone(s', q) <==> IsZone(s, q);
  }

  lemma Relaxed(s: State, zp: nat, max: nat, max': nat)
    requires Inv(s, zp, max) && |s.cached| <= max'
    ensures Inv(s, zp, max')
  {
  }

  lemma CacheSmall(s: State, zp: nat, max: nat)
    requires Inv(s, zp, max)
    ensures |s.cached| <= max
  {
  }

  lemma TakeListedSafe(g: Shared, t: Tid, zi: nat, zp: nat, base: nat)
    requires Safe(g, zp, base) && Enabled(g, TakeListed(t, zi), zp)
    ensures var g' := Next(g, TakeListed(t, zi), zp); Safe(g', zp, base) && exists x: nat :: Adds(g.s, g'.s, x, ChunkOf(zi))
  {
    hide Inv, HandsOk, Accounted, HoldsBut, FreeBut, Adds, ChunkOf;
    ServeKeepsInv(g.s, zp, RELEASE_THRESHOLD, zi);
    ServeLive(g.s, zp, RELEASE_THRESHOLD, zi);
    SameZones(g.s, Serve(g.s, zi), zp);
    SameHands(g, Serve(g.s, zi), zp, base);
  }

  lemma ReopenHolds(s: State, zp: nat, max: nat, zi: nat)
    requires Inv(s, zp, max) && s.cached != [] && zi < ZONES && zi in s.lists
    ensures HoldsBut(s, Open(Uncache(s), zp, s.cached[0], zi), zp, None, None)
  {
    hide ZonesOk, ListsOk, TableOk, PagesOk, NewZone;
    var s', p := Open(Uncache(s), zp, s.cached[0], zi), s.cached[0];
    assert p in s.cached;
    TailMembers(s.cached);
    assert forall q: nat :: IsZone(s', q) <==> IsZone(s, q);
  }

  lemma TakeCachedSafe(g: Shared, t: Tid, zi: nat, zp: nat, base: nat)
    requires Safe(g, zp, base) && Enabled(g, TakeCached(t, zi), zp)
    ensures var g' := Next(g, TakeCached(t, zi), zp); Safe(g', zp, base) && exists x: nat :: Adds(g.s, g'.s, x, ChunkOf(zi))
  {
    hide Inv, HandsOk, Accounted, HoldsBut, Adds, ChunkOf, Spare, SlabLaws.Marked, NewZone, SameLive;
    var s, u := g.s, Uncache(g.s);
    UncacheSpares(s, zp, RELEASE_THRESHOLD);
    CacheSmall(u, zp, RELEASE_THRESHOLD - 1);
    Relaxed(u, zp, RELEASE_THRESHOLD - 1, RELEASE_THRESHOLD);
    OpenKeepsInv(u, zp, RELEASE_THRESHOLD, s.cached[0], zi);
    OpenLive(u, zp, RELEASE_THRESHOLD, s.cached[0], zi);
    SameOwners(s, u);
    AddsLater(s, u, Open(u, zp, s.cached[0], zi), SlabZones.Slot(NewZone(s.cached[0], zp, zi), 0), ChunkOf(zi));
    ReopenHolds(s, zp, RELEASE_THRESHOLD, zi);
    SameHands(g, Open(u, zp, s.cached[0], zi), zp, base);
  }

  lemma AddsLater(s0: State, s1: State, s2: State, a: nat, len: nat)
    requires SameLive(s0, s1) && Adds(s1, s2, a, len)
    ensures Adds(s0, s2, a, len)
  {
  }

  lemma GetSafe(g: Shared, t: Tid, h: Hand, zp: nat, base: nat)
    requires Safe(g, zp, base) && t !in g.hands && Len(h, zp) > 0 && (h.ForZone? ==> Fits(h.zi, zp))
    requires var k := SlabPages.FirstFit(g.s.runs, 0, Len(h, zp)); k < |g.s.runs| && h.p == g.s.runs[k].at
    ensures var k := SlabPages.FirstFit(g.s.runs, 0, Len(h, zp));
      var s' := g.s.(runs := AllocAt(g.s.runs, k, Len(h, zp)));
      Safe(Shared(s', g.hands[t := h]), zp, base) && SameLive(g.s, s')
  {
    hide Inv, HandsOk, Accounted, Canonical, In, AllocAt, SameLive;
    var s, len := g.s, Len(h, zp);
    var k := SlabPages.FirstFit(s.runs, 0, len);
    var s' := s.(runs := AllocAt(s.runs, k, len));
    RunsCanonical(s, zp, RELEASE_THRESHOLD);
    AllocSpares(s, zp, RELEASE_THRESHOLD, k, len);
    forall x: nat
      ensures In(s'.runs, x) <==> In(s.runs, x) && !Covered(h, zp, x)
      ensures Covered(h, zp, x) ==> In(s.runs, x)
    {
      AllocTakes(s.runs, k, len, x);
      if Covered(h, zp, x) {
        assert Covers(s.runs[k], x);
        InRun(s.runs, k, x);
      }
    }
    SameHolds(s, s', zp);
    PagesTaken(g, s', t, h, zp, base);
    SameOwners(s, s');
  }

  lemma RunsCanonical(s: State, zp: nat, max: nat)
    requires Inv(s, zp, max)
    ensures Canonical(s.runs)
  {
  }

  lemma SameHolds(s: State, s': State, zp: nat)
    requires s'.zones == s.zones && s'.cached == s.cached && s'.large == s.large
    ensures HoldsBut(s, s', zp, None, None)
  {
    assert forall q: nat :: IsZone(s', q) <==> IsZone(s, q);
  }

  lemma OpenHolds(s: State, usage: seq<Usage>, zp: nat, p: nat, zi: nat)
    requires zi < ZONES && zi in s.lists
    ensures HoldsBut(s, Open(s.(usage := usage), zp, p, zi), zp, None, Some(ForZone(p, zi)))
  {
    hide NewZone;
    var s' := Open(s.(usage := usage), zp, p, zi);
    assert forall q: nat :: IsZone(s', q) <==> IsZone(s, q) || q == p;
  }

  lemma OpenSafe(g: Shared, t: Tid, zp: nat, base: nat)
    requires Safe(g, zp, base) && Enabled(g, OpenZone(t), zp)
    ensures var g' := Next(g, OpenZone(t), zp); Safe(g', zp, base) && exists x: nat :: Adds(g.s, g'.s, x, ChunkOf(g.hands[t].zi))
  {
    hide Inv, Accounted, HoldsBut, Adds, ChunkOf, Spare, NewZone, SameLive;
    var s, h := g.s, g.hands[t];
    var u := s.(usage := Marks(s.usage, h.p, zp));
    WriteSpare(s, zp, RELEASE_THRESHOLD, h.p, zp, u.usage);
    assert SlabLaws.Marked(u, zp, h.p);
    OpenKeepsInv(u, zp, RELEASE_THRESHOLD, h.p, h.zi);
    OpenLive(u, zp, RELEASE_THRESHOLD, h.p, h.zi);
    SameOwners(s, u);
    AddsLater(s, u, Open(u, zp, h.p, h.zi), SlabZones.Slot(NewZone(h.p, zp, h.zi), 0), ChunkOf(h.zi));
    OpenHolds(s, u.usage, zp, h.p, h.zi);
    PagesUsed(g, Open(u, zp, h.p, h.zi), t, zp, base);
  }

  lemma EnterSafe(g: Shared, t: Tid, zp: nat, base: nat)
    requires Safe(g, zp, base) && Enabled(g, EnterLarge(t), zp)
    ensures var g', h := Next(g, EnterLarge(t), zp), g.hands[t]; Safe(g', zp, base) && Adds(g.s, g'.s, h.p * PAGE, h.len * PAGE)
  {
    hide Inv, Accounted, Adds;
    var s, h := g.s, g.hands[t];
    TakeLargeKeepsInv(s, zp, RELEASE_THRESHOLD, h.p, h.len);
    TakeLargeLive(s, zp, RELEASE_THRESHOLD, h.p, h.len);
    SpareIsNew(s, zp, RELEASE_THRESHOLD, h.p, h.len);
    var s' := TakeLarge(s, h.p, h.len);
    assert forall q: nat :: IsZone(s', q) <==> IsZone(s, q);
    PagesUsed(g, s', t, zp, base);
  }

  lemma FreeLargeSafe(g: Shared, t: Tid, p: nat, zp: nat, base: nat)
    requires Safe(g, zp, base) && Enabled(g, FreeLarge(t, p), zp)
    ensures var g' := Next(g, FreeLarge(t, p), zp); Safe(g', zp, base) && Drops(g.s, g'.s, p * PAGE)
  {
    hide Inv, HandsOk, Accounted, Drops;
    var s := g.s;
    var h := Returning(p, s.large[p]);
    DropLargeSpares(s, zp, RELEASE_THRESHOLD, p);
    DropLargeLive(s, zp, RELEASE_THRESHOLD, p);
    NotBoth(s, zp, RELEASE_THRESHOLD, p);
    var s' := DropLarge(s, p);
    assert forall q: nat :: IsZone(s', q) <==> IsZone(s, q);
    PagesReleased(g, s', t, h, zp, base);
  }

  lemma NotBoth(s: State, zp: nat, max: nat, p: nat)
    requires Inv(s, zp, max)
    ensures p in s.large ==> !IsZone(s, p)
  {
  }

  lemma PutSafe(g: Shared, t: Tid, zp: nat, base: nat)
    requires Safe(g, zp, base) && Enabled(g, PutPages(t), zp)
    ensures var g' := Next(g, PutPages(t), zp); Safe(g', zp, base) && SameLive(g.s, g'.s)
  {
    hide Inv, Accounted, Canonical, In, Free, SameLive;
    var s, h := g.s, g.hands[t];
    var s' := s.(runs := Free(s.runs, h.p, h.len));
    RunsCanonical(s, zp, RELEASE_THRESHOLD);
    FreeSpare(s, zp, RELEASE_THRESHOLD, h.p, h.len);
    forall x: nat
      ensures In(s'.runs, x) <==> In(s.runs, x) || Covered(h, zp, x)
    {
      FreeAdds(s.runs, h.p, h.len, x);
    }
    SameHolds(s, s', zp);
    PagesReturned(g, s', t, zp, base);
    SameOwners(s, s');
  }

  lemma RetireHolds(s: State, zp: nat, p: nat)
    requires p in s.zones && s.zones[p].index in s.lists
    ensures HoldsBut(s, Retire(s, p), zp, None, None) && FreeBut(s, Retire(s, p), zp, None, None)
  {
    var s' := Retire(s, p);
    assert forall q: nat :: IsZone(s', q) <==> IsZone(s, q);
  }

  /** An empty zone that goes to the cache. */
  lemma RetireSafe(g: Shared, p: nat, zp: nat, base: nat)
    requires Safe(g, zp, base) && p in g.s.zones && g.s.zones[p].index in g.s.lists && g.s.zones[p].nfree == g.s.zones[p].nmax
    requires |Retire(g.s, p).cached| <= RELEASE_THRESHOLD
    ensures Safe(g.(s := Retire(g.s, p)), zp, base) && SameLive(g.s, Retire(g.s, p))
  {
    hide Inv, HandsOk, Accounted, HoldsBut, FreeBut, SameLive;
    RetireKeepsInv(g.s, zp, RELEASE_THRESHOLD, p);
    RetireLive(g.s, zp, RELEASE_THRESHOLD, p);
    Relaxed(Retire(g.s, p), zp, RELEASE_THRESHOLD + 1, RELEASE_THRESHOLD);
    RetireHolds(g.s, zp, p);
    SameHands(g, Retire(g.s, p), zp, base);
  }

  lemma ReleaseHolds(s: State, usage: seq<Usage>, zp: nat, max: nat, p: nat)
    requires Inv(s, zp, max) && p in s.zones && s.zones[p].index in s.lists
    ensures HoldsBut(s, Uncache(Retire(s, p)).(usage := usage), zp, Some(Returning(p, zp)), None)
    ensures Holds(s, zp, p, zp) && forall m: nat :: Holds(s, zp, p, m) ==> m == zp
  {
    hide ZonesOk, ListsOk, TableOk;
    var s' := Uncache(Retire(s, p)).(usage := usage);
    assert IsZone(s, p);
    assert forall q: nat :: IsZone(s', q) <==> IsZone(s, q) && q != p;
  }

  /** An empty zone that the full cache passes on. */
  lemma ReleaseSafe(g: Shared, t: Tid, p: nat, zp: nat, base: nat)
    requires Safe(g, zp, base) && t !in g.hands && p in g.s.zones && g.s.zones[p].index in g.s.lists && g.s.zones[p].nfree == g.s.zones[p].nmax
    ensures var s' := Uncache(Retire(g.s, p)).(usage := Unmarks(g.s.usage, p, zp));
      Safe(Shared(s', g.hands[t := Returning(p, zp)]), zp, base) && SameLive(g.s, s')
  {
    hide Inv, HandsOk, Accounted, HoldsBut, SameLive, Spare, SlabLaws.Marked, Holds;
    var r := Retire(g.s, p);
    RetireKeepsInv(g.s, zp, RELEASE_THRESHOLD, p);
    RetireLive(g.s, zp, RELEASE_THRESHOLD, p);
    UncacheSpares(r, zp, RELEASE_THRESHOLD + 1);
    var usage := Unmarks(g.s.usage, p, zp);
    var s' := Uncache(r).(usage := usage);
    WriteSpare(Uncache(r), zp, RELEASE_THRESHOLD, p, zp, usage);
    ReleaseHolds(g.s, usage, zp, RELEASE_THRESHOLD, p);
    PagesReleased(g, s', t, Returning(p, zp), zp, base);
    SameOwners(r, s');
    LiveTwice(g.s, r, s');
  }

  lemma LiveTwice(s0: State, s1: State, s2: State)
    requires SameLive(s0, s1) && SameLive(s1, s2)
    ensures SameLive(s0, s2)
  {
  }

  lemma DropsLater(s0: State, s1: State, s2: State, a: nat)
    requires Drops(s0, s1, a) && SameLive(s1, s2)
    ensures Drops(s0, s2, a)
  {
  }

  lemma FreeChunkSafe(g: Shared, t: Tid, p: nat, a: nat, zp: nat, base: nat)
    requires Safe(g, zp, base) && Enabled(g, FreeChunk(t, p, a), zp)
    ensures var g' := Next(g, FreeChunk(t, p, a), zp); Safe(g', zp, base) && Drops(g.s, g'.s, a)
  {
    hide Inv, HandsOk, Accounted, HoldsBut, FreeBut, Drops, SameLive, GiveChunk, LiveIn;
    GiveKeepsInv(g.s, zp, RELEASE_THRESHOLD, p, a);
    GiveLive(g.s, zp, RELEASE_THRESHOLD, p, a);
    GivenIndex(g.s.zones[p], a);
    var s1 := Give(g.s, p, a);
    SameZones(g.s, s1, zp);
    SameHands(g, s1, zp, base);
    var g1 := g.(s := s1);
    var s2 := Settle(s1, p, zp).0;
    if Retires(s1, p) {
      if |Retire(s1, p).cached| <= RELEASE_THRESHOLD {
        RetireSafe(g1, p, zp, base);
      } else {
        ReleaseSafe(g1, t, p, zp, base);
      }
      DropsLater(g.s, s1, s2, a);
    }
  }

  lemma GivenIndex(z: Zone, a: nat)
    ensures GiveChunk(z, a).index == z.index
  {
  }

  // ---- every interleaving

  /** What a step does to the live blocks: a malloc adds one of the right size when it is through, a free drops one at once. */
  ghost predicate Effect(g: Shared, g': Shared, a: Action)
    requires a.OpenZone? || a.EnterLarge? ==> a.t in g.hands
    requires a.OpenZone? ==> g.hands[a.t].ForZone?
    requires a.EnterLarge? ==> g.hands[a.t].ForLarge?
  {
    match a
    case TakeListed(_, zi) => exists x: nat :: Adds(g.s, g'.s, x, ChunkOf(zi))
    case TakeCached(_, zi) => exists x: nat :: Adds(g.s, g'.s, x, ChunkOf(zi))
    case OpenZone(t) => exists x: nat :: Adds(g.s, g'.s, x, ChunkOf(g.hands[t].zi))
    case EnterLarge(t) => Adds(g.s, g'.s, g.hands[t].p * PAGE, g.hands[t].len * PAGE)
    case FreeChunk(_, _, x) => Drops(g.s, g'.s, x)
    case FreeLarge(_, p) => Drops(g.s, g'.s, p * PAGE)
    case _ => SameLive(g.s, g'.s)
  }

  /** In whatever order the parts of calls interleave: the heap stays right, no page is in two places or lost, and live blocks
      come and go one at a time. */
  lemma StepKeepsSafe(g: Shared, a: Action, zp: nat, base: nat)
    requires Safe(g, zp, base) && Enabled(g, a, zp)
    ensures Safe(Next(g, a, zp), zp, base) && Effect(g, Next(g, a, zp), a)
  {
    hide Inv, HandsOk, Accounted, Adds, Drops, SameLive, AllocAt, Serve, Open, TakeLarge, Give, DropLarge, Settle, Free, ChunkOf, Marks;
    match a
    case TakeListed(t, zi) => TakeListedSafe(g, t, zi, zp, base);
    case TakeCached(t, zi) => TakeCachedSafe(g, t, zi, zp, base);
    case GetZonePages(t, zi) => GetSafe(g, t, ForZone(g.s.runs[SlabPages.FirstFit(g.s.runs, 0, zp)].at, zi), zp, base);
    case OpenZone(t) => OpenSafe(g, t, zp, base);
    case GetLargePages(t, len) => GetSafe(g, t, ForLarge(g.s.runs[SlabPages.FirstFit(g.s.runs, 0, len)].at, len), zp, base);
    case EnterLarge(t) => EnterSafe(g, t, zp, base);
    case FreeChunk(t, p, x) => FreeChunkSafe(g, t, p, x, zp, base);
    case FreeLarge(t, p) => FreeLargeSafe(g, t, p, zp, base);
    case PutPages(t) => PutSafe(g, t, zp, base);
  }

  ghost predicate IsRun(g: Shared, steps: seq<Action>, zp: nat, base: nat)
    requires Safe(g, zp, base)
    decreases |steps|
  {
    steps != [] ==>
      && Enabled(g, steps[0], zp)
      && (StepKeepsSafe(g, steps[0], zp, base); IsRun(Next(g, steps[0], zp), steps[1..], zp, base))
  }

  ghost function After(g: Shared, steps: seq<Action>, zp: nat, base: nat): (r: Shared)
    requires Safe(g, zp, base) && IsRun(g, steps, zp, base)
    ensures Safe(r, zp, base)
    decreases |steps|
  {
    if steps == [] then g else
      StepKeepsSafe(g, steps[0], zp, base);
      After(Next(g, steps[0], zp), steps[1..], zp, base)
  }

  /** After any interleaving live blocks lie apart inside the heap, and once all calls have returned, every page from base on is
      free or part of a zone or a large block, and not both. */
  lemma EveryRun(g: Shared, steps: seq<Action>, zp: nat, base: nat, a: nat, l: nat, b: nat, m: nat, x: nat)
    requires Safe(g, zp, base) && IsRun(g, steps, zp, base)
    ensures var r := After(g, steps, zp, base);
      && (Live(r.s, a, l) && Live(r.s, b, m) && a != b ==> a + l <= |r.s.usage| * PAGE && (a + l <= b || b + m <= a))
      && (r.hands == map[] && base <= x < |r.s.usage| ==> (In(r.s.runs, x) <==> !Owned(r.s, zp, x)))
  {
    hide Live, IsRun, Next;
    var r := After(g, steps, zp, base);
    if Live(r.s, a, l) && Live(r.s, b, m) {
      LiveDisjoint(r.s, zp, RELEASE_THRESHOLD, a, l, b, m);
    }
  }

  lemma NewRun(a: nat, n: int)
    ensures forall x: nat :: n > 0 && a <= x < a + n ==> In([Run(a, n)], x)
  {
    forall x: nat | n > 0 && a <= x < a + n
      ensures In([Run(a, n)], x)
    {
      assert Covers([Run(a, n)][0], x);
    }
  }

  // ---- calls that nothing interrupts

  /** rt_page_alloc has taken n pages from p on. */
  ghost predicate Taken(rs: seq<Run>, rs': seq<Run>, p: int, n: nat) {
    n > 0 && var k := SlabPages.FirstFit(rs, 0, n); k < |rs| && p == rs[k].at && rs' == AllocAt(rs, k, n)
  }

  /** rt_malloc has taken a chunk of the first zone on list zi. */
  ghost predicate Serves(s: State, s': State, zi: nat) {
    && zi in s.lists && s.lists[zi] != [] && s.lists[zi][0] in s.zones
    && (var z := s.zones[s.lists[zi][0]]; z.uindex + 1 == z.nmax ==> z.freed != [])
    && s' == Serve(s, zi)
  }

  /** rt_free of a chunk or a large block, with the return of pages if there is one. */
  ghost function FreeCall(s: State, a: Action, zp: nat, base: nat): (r: State)
    requires Safe(Shared(s, map[]), zp, base) && (a.FreeChunk? || a.FreeLarge?) && Enabled(Shared(s, map[]), a, zp)
    ensures Safe(Shared(r, map[]), zp, base)
  {
    hide Inv, HandsOk, Accounted, Effect, LiveIn;
    var g := Shared(s, map[]);
    StepKeepsSafe(g, a, zp, base);
    var g1 := Next(g, a, zp);
    if a.t !in g1.hands then
      assert g1.hands == map[];
      g1.s
    else
      assert g1.hands - {a.t} == map[];
      StepKeepsSafe(g1, PutPages(a.t), zp, base);
      Next(g1, PutPages(a.t), zp).s
  }

  lemma LargeServed(s: State, s1: State, p: nat, n: nat, zp: nat, base: nat)
    requires Safe(Shared(s, map[]), zp, base) && s1 == s.(runs := s1.runs) && Taken(s.runs, s1.runs, p, n) && p < |s.usage|
    ensures Safe(Shared(TakeLarge(s1, p, n), map[]), zp, base)
  {
    hide Inv, HandsOk, Accounted, Effect, AllocAt, TakeLarge;
    var g := Shared(s, map[]);
    StepKeepsSafe(g, GetLargePages(0, n), zp, base);
    var g1 := Next(g, GetLargePages(0, n), zp);
    assert g1 == Shared(s1, map[0 := ForLarge(p, n)]);
    StepKeepsSafe(g1, EnterLarge(0), zp, base);
    assert g1.hands - {0} == map[];
  }

  lemma ZoneServed(s: State, s1: State, p: nat, zi: nat, zp: nat, base: nat)
    requires Safe(Shared(s, map[]), zp, base) && s1 == s.(runs := s1.runs) && Taken(s.runs, s1.runs, p, zp) && Fits(zi, zp) && zi in s.lists
    ensures Safe(Shared(Open(s1.(usage := Marks(s1.usage, p, zp)), zp, p, zi), map[]), zp, base)
  {
    hide Inv, HandsOk, Accounted, Effect, AllocAt, Open, Marks;
    var g := Shared(s, map[]);
    StepKeepsSafe(g, GetZonePages(0, zi), zp, base);
    var g1 := Next(g, GetZonePages(0, zi), zp);
    assert g1 == Shared(s1, map[0 := ForZone(p, zi)]);
    StepKeepsSafe(g1, OpenZone(0), zp, base);
    assert g1.hands - {0} == map[];
  }

  lemma CachedServed(s: State, zi: nat, zp: nat, base: nat)
    requires Safe(Shared(s, map[]), zp, base) && Fits(zi, zp) && zi in s.lists && s.lists[zi] == [] && s.cached != []
    ensures Safe(Shared(Open(Uncache(s), zp, s.cached[0], zi), map[]), zp, base)
  {
    hide Inv, HandsOk, Accounted, Effect, Open, Uncache;
    StepKeepsSafe(Shared(s, map[]), TakeCached(0, zi), zp, base);
  }

  lemma ListedServed(s: State, s': State, zi: nat, zp: nat, base: nat)
    requires Safe(Shared(s, map[]), zp, base) && Serves(s, s', zi) && zi < ZONES
    ensures Safe(Shared(s', map[]), zp, base)
  {
    hide Inv, HandsOk, Accounted, Effect, Serve;
    StepKeepsSafe(Shared(s, map[]), TakeListed(0, zi), zp, base);
  }

  /** n pages from p on have gone from the free ones, the lowest that lay together. */
  ghost predicate LowestGone(rs: seq<Run>, rs': seq<Run>, p: nat, n: nat) {
    && AllFree(rs, p, n) && (forall a: nat :: AllFree(rs, a, n) ==> p <= a)
    && forall x: nat :: In(rs', x) <==> In(rs, x) && !(p <= x < p + n)
  }

  /** Where rt_malloc has taken chunk a from: the first listed zone, where a chunk that has never been out goes before the one
      given back last; or else the zone cached last; or else the lowest pages for a new one. */
  ghost predicate TakenFrom(s: State, s': State, zp: nat, zi: nat, a: nat) {
    && zi in s.lists
    && (s.lists[zi] != [] ==>
      var p := s.lists[zi][0];
      && p in s.zones && LiveSmall(s', p, a) && s'.runs == s.runs && s'.cached == s.cached && s'.zones.Keys == s.zones.Keys
      && (if s.zones[p].uindex + 1 < s.zones[p].nmax then !Carved(s.zones[p], a) else s.zones[p].freed != [] && a == s.zones[p].freed[0]))
    && (s.lists[zi] == [] && s.cached != [] ==>
      LiveSmall(s', s.cached[0], a) && s'.runs == s.runs && s'.cached == s.cached[1..] && s'.zones.Keys == s.zones.Keys + {s.cached[0]})
    && (s.lists[zi] == [] && s.cached == [] ==>
      exists p: nat :: LiveSmall(s', p, a) && LowestGone(s.runs, s'.runs, p, zp) && s'.cached == [] && s'.zones.Keys == s.zones.Keys + {p})
  }

  lemma ListedFrom(s: State, s': State, zp: nat, max: nat, zi: nat)
    requires Inv(s, zp, max) && Serves(s, s', zi) && zi < ZONES
    ensures s.zones[s.lists[zi][0]].uindex >= 0 && TakenFrom(s, s', zp, zi, NextChunk(s.zones[s.lists[zi][0]]))
  {
    ListHead(s, zp, max, zi);
    var p := s.lists[zi][0];
    ZoneIsOk(s, p, zp, max);
    hide Inv, ZoneOk;
    TakeKeepsZone(s.zones[p], p, zp);
    FreshNotCarved(s.zones[p], p, zp);
    assert LiveSmall(s', p, NextChunk(s.zones[p]));
  }

  lemma FreshNotCarved(z: Zone, p: nat, zp: nat)
    requires ZoneOk(z, p, zp)
    ensures z.uindex + 1 < z.nmax ==> !Carved(z, SlabZones.Slot(z, z.uindex + 1))
  {
    hide ChunkOf, SlabZones.Slot;
    ChunkPositive(z.index);
    if z.uindex + 1 < z.nmax {
      forall i: nat | i <= z.uindex
        ensures SlabZones.Slot(z, i) != SlabZones.Slot(z, z.uindex + 1)
      {
        SlotsApart(z, i, z.uindex + 1);
      }
    }
  }

  lemma FirstIsLive(p: nat, zp: nat, zi: nat)
    requires zi < ZONES
    ensures LiveIn(NewZone(p, zp, zi), SlabZones.Slot(NewZone(p, zp, zi), 0))
  {
    hide ChunkOf, FirstOffset;
  }

  lemma CachedFrom(s: State, zp: nat, zi: nat)
    requires zi < ZONES && zi in s.lists && s.lists[zi] == [] && s.cached != []
    ensures var p := s.cached[0]; TakenFrom(s, Open(Uncache(s), zp, p, zi), zp, zi, SlabZones.Slot(NewZone(p, zp, zi), 0))
  {
    hide NewZone, LiveIn, SlabZones.Slot;
    FirstIsLive(s.cached[0], zp, zi);
  }

  lemma FreshFrom(s: State, s1: State, zp: nat, max: nat, p: nat, zi: nat)
    requires Inv(s, zp, max) && zi < ZONES && zi in s.lists && s.lists[zi] == [] && s.cached == []
    requires s1 == s.(runs := s1.runs) && Taken(s.runs, s1.runs, p, zp)
    ensures TakenFrom(s, Open(s1.(usage := Marks(s1.usage, p, zp)), zp, p, zi), zp, zi, SlabZones.Slot(NewZone(p, zp, zi), 0))
  {
    hide NewZone, LiveIn, SlabZones.Slot, Marks, LowestGone;
    FirstIsLive(p, zp, zi);
    RunsCanonical(s, zp, max);
    LowestTaken(s.runs, s1.runs, p, zp);
    hide Inv;
  }

  lemma LowestTaken(rs: seq<Run>, rs': seq<Run>, p: nat, n: nat)
    requires Canonical(rs) && Taken(rs, rs', p, n)
    ensures LowestGone(rs, rs', p, n)
  {
    hide Canonical, In, AllFree, AllocAt;
    AllocFindsLowest(rs, n);
    forall x: nat
      ensures In(rs', x) <==> In(rs, x) && !(p <= x < p + n)
    {
      AllocTakes(rs, SlabPages.FirstFit(rs, 0, n), n, x);
    }
  }

  /** The heap that rt_system_heap_init sets up. */
  lemma InitSafe(s: State, zp: nat, base: nat)
    requires Inv(s, zp, RELEASE_THRESHOLD) && forall x: nat :: base <= x < |s.usage| ==> In(s.runs, x)
    ensures Safe(Shared(s, map[]), zp, base)
  {
  }

  /** The pages of large block p have become free pages. */
  ghost predicate PagesBack(s: State, r: State, p: nat)
    requires p in s.large
  {
    forall x: nat :: In(r.runs, x) <==> In(s.runs, x) || p <= x < p + s.large[p]
  }

  /** What has become of zone p, which chunk a was given back to: if that was its last live chunk, the zone goes exactly if it is
      not alone on its list, into the cache, or, the cache being full, back to the free pages. */
  ghost predicate Settled(s: State, r: State, p: nat, a: nat, zp: nat)
    requires p in s.zones && s.zones[p].index in s.lists
  {
    var goes := LastChunk(s, p, a) && HasCompany(Give(s, p, a).lists[s.zones[p].index], p);
    && (p !in r.zones <==> goes)
    && (r.cached == if goes && |s.cached| < RELEASE_THRESHOLD then [p] + s.cached else s.cached)
    && (forall x: nat :: In(r.runs, x) <==> In(s.runs, x) || (goes && |s.cached| >= RELEASE_THRESHOLD && p <= x < p + zp))
  }

  /** The pages of a large block are free once it is freed. */
  lemma LargeFreed(s: State, t: Tid, p: nat, zp: nat, base: nat)
    requires Safe(Shared(s, map[]), zp, base) && p in s.large
    ensures PagesBack(s, FreeCall(s, FreeLarge(t, p), zp, base), p)
    ensures p < |s.usage| && FreeCall(s, FreeLarge(t, p), zp, base) == DropLarge(s, p).(runs := Free(s.runs, p, s.large[p]))
  {
    hide Inv, Accounted, Spare, In, Free, Canonical, NoneFree;
    var g := Shared(s, map[]);
    var h := Returning(p, s.large[p]);
    StepKeepsSafe(g, FreeLarge(t, p), zp, base);
    DropLargeSpares(s, zp, RELEASE_THRESHOLD, p);
    var g1 := Next(g, FreeLarge(t, p), zp);
    assert g1 == Shared(DropLarge(s, p), map[t := h]);
    SpareRuns(g1.s, zp, RELEASE_THRESHOLD, p, s.large[p]);
    forall x: nat
      ensures In(Free(s.runs, p, s.large[p]), x) <==> In(s.runs, x) || p <= x < p + s.large[p]
    {
      FreeAdds(s.runs, p, s.large[p], x);
    }
  }

  lemma SpareRuns(s: State, zp: nat, max: nat, p: nat, len: nat)
    requires Inv(s, zp, max) && Spare(s, zp, p, len)
    ensures Canonical(s.runs) && len > 0 && NoneFree(s.runs, p, len)
  {
  }

  /** Zone p has no live chunk but a. */
  ghost predicate LastChunk(s: State, p: nat, a: nat) {
    forall b: nat :: LiveSmall(s, p, b) ==> b == a
  }

  /** Zone p is not the only one on list l. */
  ghost predicate HasCompany(l: seq<nat>, p: nat) {
    exists q :: q != p && q in l
  }

  lemma CompanyAtEnds(l: seq<nat>, p: nat)
    requires Distinct(l) && p in l
    ensures HasCompany(l, p) <==> l[|l| - 1] != p || l[0] != p
  {
    if l[|l| - 1] != p {
      assert l[|l| - 1] in l;
    } else if l[0] != p {
      assert l[0] in l;
    }
  }

  lemma GivenEmpty(s: State, p: nat, a: nat, zp: nat, max: nat)
    requires Inv(s, zp, max) && LiveSmall(s, p, a)
    ensures GiveChunk(s.zones[p], a).nfree == GiveChunk(s.zones[p], a).nmax <==> LastChunk(s, p, a)
  {
    hide Inv, LiveIn, GiveChunk, ZoneOk;
    ZoneIsOk(s, p, zp, max);
    GivenEmptyZone(s.zones[p], p, a, zp);
    assert forall b: nat :: LiveSmall(s, p, b) <==> LiveIn(s.zones[p], b);
  }

  lemma ZoneIsOk(s: State, p: nat, zp: nat, max: nat)
    requires Inv(s, zp, max) && p in s.zones
    ensures ZoneOk(s.zones[p], p, zp)
  {
  }

  lemma GivenEmptyZone(z: Zone, p: nat, a: nat, zp: nat)
    requires ZoneOk(z, p, zp) && LiveIn(z, a)
    ensures GiveChunk(z, a).nfree == GiveChunk(z, a).nmax <==> forall b :: LiveIn(z, b) ==> b == a
  {
    hide ZoneOk, LiveIn, GiveChunk;
    GiveKeepsZone(z, p, zp, a);
    EmptyExactly(GiveChunk(z, a), p, zp);
  }

  lemma GivenList(s: State, p: nat, a: nat, zp: nat, max: nat)
    requires Inv(s, zp, max) && LiveSmall(s, p, a)
    ensures s.zones[p].index in s.lists
    ensures var s1 := Give(s, p, a); var zi := s.zones[p].index;
      zi in s1.lists && Distinct(s1.lists[zi]) && p in s1.lists[zi]
  {
    GiveKeepsInv(s, zp, max, p, a);
    GiveKeepsZone(s.zones[p], p, zp, a);
    EmptyExactly(s.zones[p], p, zp);
    hide ZoneOk, TableOk, PagesOk;
    assert Listed(Give(s, p, a), s.zones[p].index, p);
  }

  /** A zone out of use: in the cache, or, the cache being full, with its pages given back. */
  function Retired(s: State, p: nat, zp: nat): State
    requires p in s.zones && s.zones[p].index in s.lists
  {
    var r := Retire(s, p);
    if |r.cached| <= RELEASE_THRESHOLD then r
    else Uncache(r).(usage := Unmarks(r.usage, r.cached[0], zp), runs := Free(r.runs, r.cached[0], zp))
  }

  lemma ChunkFreed(s: State, t: Tid, p: nat, a: nat, zp: nat, base: nat)
    requires Safe(Shared(s, map[]), zp, base) && LiveSmall(s, p, a)
    ensures s.zones[p].index in s.lists && GiveChunk(s.zones[p], a).index == s.zones[p].index
    ensures var s1 := Give(s, p, a);
      FreeCall(s, FreeChunk(t, p, a), zp, base) == if Retires(s1, p) then Retired(s1, p, zp) else s1
  {
    hide Inv, Accounted, HandsOk, Free, LiveIn, GiveChunk, Effect, Unmarks;
    GivenList(s, p, a, zp, RELEASE_THRESHOLD);
    GivenIndex(s.zones[p], a);
    StepKeepsSafe(Shared(s, map[]), FreeChunk(t, p, a), zp, base);
  }

  lemma ZonePages(s: State, p: nat, zp: nat, max: nat)
    requires Inv(s, zp, max) && p in s.zones
    ensures Canonical(s.runs) && zp > 0 && NoneFree(s.runs, p, zp)
  {
    assert IsZone(s, p) && Holds(s, zp, p, zp);
  }

  /** So it is with rt_free of a chunk. */
  lemma ZoneFreed(s: State, t: Tid, p: nat, a: nat, zp: nat, base: nat)
    requires Safe(Shared(s, map[]), zp, base) && LiveSmall(s, p, a)
    ensures s.zones[p].index in s.lists
    ensures Settled(s, FreeCall(s, FreeChunk(t, p, a), zp, base), p, a, zp)
  {
    hide Inv, Accounted, HandsOk, Spare, In, Free, Canonical, NoneFree, LiveIn, GiveChunk, HasCompany, LastChunk, FreeCall, Enabled, Unmarks;
    ChunkFreed(s, t, p, a, zp, base);
    GivenList(s, p, a, zp, RELEASE_THRESHOLD);
    GivenEmpty(s, p, a, zp, RELEASE_THRESHOLD);
    CompanyAtEnds(Give(s, p, a).lists[s.zones[p].index], p);
    ZonePages(s, p, zp, RELEASE_THRESHOLD);
    CacheSmall(s, zp, RELEASE_THRESHOLD);
    forall x: nat
      ensures In(Free(s.runs, p, zp), x) <==> In(s.runs, x) || p <= x < p + zp
    {
      FreeAdds(s.runs, p, zp, x);
    }
  }
}
