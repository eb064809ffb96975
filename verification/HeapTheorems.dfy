// What a caller of memheap.c may rely on, over calls and whole runs.
module HeapTheorems {
  import opened Seqs
  import opened Words
  import opened HeapSpec
  import opened HeapLaws

  // ---- the blocks in use decide the partition

  ghost predicate TiledFrom(xs: seq<Block>, a: int, end: int) {
    && |xs| >= 1
    && xs[0].addr == a
    && xs[|xs| - 1] == Block(end, 0, true)
    && (forall i :: 0 <= i < |xs| ==> xs[i].size >= 0)
    && (forall i {:trigger xs[i].End()} :: 0 <= i < |xs| - 1 ==> xs[i].End() == xs[i + 1].addr)
  }

  ghost function UsedIn(xs: seq<Block>): set<Block> {
    set b | b in xs && b.used
  }

  lemma {:induction false} LaterAddress(xs: seq<Block>, a: int, end: int, j: nat)
    requires TiledFrom(xs, a, end) && j < |xs|
    ensures xs[j].addr >= a + HEADER * j
  {
    if j > 0 {
      LaterAddress(xs, a, end, j - 1);
      assert xs[j - 1].End() == xs[j].addr;
    }
  }

  lemma TailTiled(xs: seq<Block>, a: int, end: int)
    requires TiledFrom(xs, a, end) && |xs| > 1 && Merged(xs)
    ensures TiledFrom(xs[1..], xs[0].End(), end) && Merged(xs[1..])
    ensures UsedIn(xs[1..]) == UsedIn(xs) - {xs[0]}
  {
    assert xs[0].End() == xs[1].addr;
    var t := xs[1..];
    forall i | 0 <= i < |t| - 1
      ensures t[i].End() == t[i + 1].addr
    {
      assert xs[i + 1].End() == xs[i + 2].addr;
    }
    forall b | b in t
      ensures b != xs[0]
    {
      var j :| 0 <= j < |t| && t[j] == b;
      LaterAddress(xs, a, end, j + 1);
    }
    assert xs == [xs[0]] + t;
  }

  /** Two tilings of the same bytes with the same blocks in use, both fully merged, start with the same block. */
  lemma SameHead(xs: seq<Block>, ys: seq<Block>, a: int, end: int)
    requires TiledFrom(xs, a, end) && TiledFrom(ys, a, end) && Merged(xs) && Merged(ys)
    requires UsedIn(xs) == UsedIn(ys)
    ensures xs[0] == ys[0]
  {
    if xs[0].used || ys[0].used {
      UsedHead(xs, ys, a, end);
      UsedHead(ys, xs, a, end);
    } else {
      assert xs[0].used || xs[1].used;
      assert ys[0].used || ys[1].used;
      FreeHead(xs, ys, a, end);
      FreeHead(ys, xs, a, end);
      assert xs[0].End() == xs[1].addr && ys[0].End() == ys[1].addr;
    }
  }

  lemma UsedHead(xs: seq<Block>, ys: seq<Block>, a: int, end: int)
    requires TiledFrom(xs, a, end) && TiledFrom(ys, a, end) && UsedIn(xs) == UsedIn(ys)
    ensures xs[0].used ==> xs[0] == ys[0]
  {
    if xs[0].used {
      assert xs[0] in UsedIn(ys);
      var j :| 0 <= j < |ys| && ys[j] == xs[0];
      LaterAddress(ys, a, end, j);
    }
  }

  lemma FreeHead(xs: seq<Block>, ys: seq<Block>, a: int, end: int)
    requires TiledFrom(xs, a, end) && TiledFrom(ys, a, end) && UsedIn(xs) == UsedIn(ys)
    requires !xs[0].used && !ys[0].used && |xs| > 1 && |ys| > 1 && xs[1].used
    ensures ys[1].addr <= xs[1].addr
  {
    assert xs[1] in UsedIn(ys);
    var j :| 0 <= j < |ys| && ys[j] == xs[1];
    FromSecond(ys, a, end, j);
  }

  lemma {:induction false} FromSecond(ys: seq<Block>, a: int, end: int, j: nat)
    requires TiledFrom(ys, a, end) && 1 <= j < |ys|
    ensures ys[1].addr <= ys[j].addr
  {
    if j > 1 {
      FromSecond(ys, a, end, j - 1);
      assert ys[j - 1].End() == ys[j].addr;
    }
  }

  lemma {:induction false} SameTiling(xs: seq<Block>, ys: seq<Block>, a: int, end: int)
    requires TiledFrom(xs, a, end) && TiledFrom(ys, a, end) && Merged(xs) && Merged(ys)
    requires UsedIn(xs) == UsedIn(ys)
    ensures xs == ys
    decreases |xs|
  {
    SameHead(xs, ys, a, end);
    LaterAddress(xs, a, end, |xs| - 1);
    LaterAddress(ys, a, end, |ys| - 1);
    if |xs| == 1 || |ys| == 1 {
      assert xs[0].addr == end;
    } else {
      TailTiled(xs, a, end);
      TailTiled(ys, a, end);
      SameTiling(xs[1..], ys[1..], xs[0].End(), end);
      assert xs == [xs[0]] + xs[1..] && ys == [ys[0]] + ys[1..];
    }
  }

  /** Whatever sequence of calls led there: heaps with the same blocks in use have the same partition and the same free bytes. */
  lemma Canonical(v: View, w: View, start: int, end: int)
    requires Valid(v, start, end) && Valid(w, start, end) && Live(v) == Live(w)
    ensures v.blocks == w.blocks
    ensures FreeBytes(v.blocks) == FreeBytes(w.blocks) && forall f :: f in v.free <==> f in w.free
  {
    assert UsedIn(v.blocks) == Live(v) && UsedIn(w.blocks) == Live(w);
    SameTiling(v.blocks, w.blocks, start, end);
    SameListed(v, w, start, end);
    SameListed(w, v, start, end);
  }

  lemma SameListed(v: View, w: View, start: int, end: int)
    requires Valid(v, start, end) && Valid(w, start, end) && v.blocks == w.blocks
    ensures forall f :: f in v.free ==> f in w.free
  {
    forall f | f in v.free
      ensures f in w.free
    {
      var i := FindListed(v, start, end, f);
    }
  }

  /** A heap from which everything has been freed is as it was when it was set up. */
  lemma AllFreed(v: View, start: int, pool: int)
    requires pool >= 2 * HEADER && Valid(v, start, start + pool - HEADER)
    requires Live(v) == {Block(start + pool - HEADER, 0, true)}
    ensures v == Initial(start, pool)
  {
    var w, end := Initial(start, pool), start + pool - HEADER;
    InitialValid(start, pool);
    assert Live(w) == {w.blocks[1]};
    Canonical(v, w, start, end);
    assert forall f :: f in v.free ==> f in [start];
    OnlyMember(v.free, start);
  }

  lemma OnlyMember(s: seq<int>, x: int)
    requires Distinct(s) && x in s && forall y :: y in s ==> y == x
    ensures s == [x]
  {
    var last := |s| - 1;
    assert s[0] in s && s[last] in s;
  }

  // ---- what is in use, after each operation

  lemma UsedInConcat(xs: seq<Block>, ys: seq<Block>)
    ensures UsedIn(xs + ys) == UsedIn(xs) + UsedIn(ys)
  {
  }

  /** No block occurs twice. */
  lemma Apart(bs: seq<Block>, start: int, end: int, lo: nat, hi: nat)
    requires Tiled(bs, start, end) && lo <= hi <= |bs|
    ensures UsedIn(bs[lo..hi]) !! UsedIn(bs[..lo]) && UsedIn(bs[lo..hi]) !! UsedIn(bs[hi..])
  {
    forall b | b in bs[lo..hi]
      ensures b !in bs[..lo] && b !in bs[hi..]
    {
      var i :| lo <= i < hi && bs[i] == b;
      if b in bs[..lo] {
        var j :| 0 <= j < lo && bs[j] == b;
        SameAddress(bs, start, end, i, j);
      }
      if b in bs[hi..] {
        var j :| hi <= j < |bs| && bs[j] == b;
        SameAddress(bs, start, end, i, j);
      }
    }
  }

  lemma LiveSplice(bs: seq<Block>, start: int, end: int, lo: nat, hi: nat, mid: seq<Block>)
    requires Tiled(bs, start, end) && lo <= hi <= |bs|
    ensures UsedIn(Splice(bs, lo, hi, mid)) == UsedIn(bs) - UsedIn(bs[lo..hi]) + UsedIn(mid)
  {
    Apart(bs, start, end, lo, hi);
    UsedInConcat(bs[..lo] + mid, bs[hi..]);
    UsedInConcat(bs[..lo], mid);
    UsedInConcat(bs[..lo] + bs[lo..hi], bs[hi..]);
    UsedInConcat(bs[..lo], bs[lo..hi]);
    Parts(bs, lo, hi);
  }

  /** Only block i is in use in a stretch of i and free neighbours. */
  lemma OnlyUsed(bs: seq<Block>, lo: nat, hi: nat, i: nat)
    requires lo <= i < hi <= |bs| && forall j :: lo <= j < hi ==> (bs[j].used <==> j == i)
    ensures UsedIn(bs[lo..hi]) == {bs[i]}
  {
    assert bs[lo..hi][i - lo] == bs[i];
  }

  /** Allocation adds exactly one block, of the size asked for or a little more, and disturbs none. */
  lemma LiveAlloc(v: View, start: int, end: int, i: nat, want: nat)
    requires Valid(v, start, end) && i < |v.blocks| - 1 && !v.blocks[i].used && want <= v.blocks[i].size
    ensures var b := Carve(v.blocks[i], want)[0];
      && Live(AllocAt(v, i, want)) == Live(v) + {b} && b !in Live(v)
      && want <= b.size < want + HEADER + MINIALLOC
  {
    var mid, b := Carve(v.blocks[i], want), Carve(v.blocks[i], want)[0];
    LiveSplice(v.blocks, start, end, i, i + 1, mid);
    assert UsedIn(v.blocks[i..i + 1]) == {};
    assert UsedIn(mid) == {b};
  }

  /** Freeing removes exactly the freed block. */
  lemma LiveFree(v: View, start: int, end: int, i: nat)
    requires Valid(v, start, end) && i < |v.blocks| - 1 && v.blocks[i].used
    ensures Live(FreeAt(v, i)) == Live(v) - {v.blocks[i]}
  {
    var lo, hi := FreeLo(v, i), FreeHi(v, i);
    LiveSplice(v.blocks, start, end, lo, hi + 1, [Joined(v, lo, hi)]);
    OnlyUsed(v.blocks, lo, hi + 1, i);
    assert UsedIn([Joined(v, lo, hi)]) == {};
  }

  /** Resizing in place changes the size of one block in use. */
  lemma LiveResize(v: View, start: int, end: int, i: nat, want: nat)
    requires Valid(v, start, end) && i < |v.blocks| - 1 && CanResize(v, i, want)
    ensures Live(ResizeAt(v, i, want)) == Live(v) - {v.blocks[i]} + {v.blocks[i].(size := want)}
  {
    var hi, mid := FreeHi(v, i), Resized(v, i, want);
    LiveSplice(v.blocks, start, end, i, hi + 1, mid);
    OnlyUsed(v.blocks, i, hi + 1, i);
    assert mid[0] in mid && UsedIn(mid) == {mid[0]};
  }

  /** Reallocating replaces one block in use by another one, at the address returned and of the size wanted or more. */
  lemma LiveRealloc(v: View, start: int, end: int, i: nat, want: nat) returns (b: Block)
    requires Valid(v, start, end) && Named(v.blocks, v.free) && i < |v.blocks| - 1 && v.blocks[i].used && !Stuck(v, i, want)
    ensures b.used && b.addr == Landing(v, i, want) && b.size >= want
    ensures b !in Live(v) - {v.blocks[i]} && Live(HeapSpec.Realloc(v, i, want)) == Live(v) - {v.blocks[i]} + {b}
  {
    b := v.blocks[i];
    if want > v.blocks[i].size { GrowsWhere(v, start, end, i, want); }
    if GrowsInPlace(v, i, want) {
      GrowRoom(v, start, end, i, want);
      LiveResize(v, start, end, i, want);
      b := b.(size := want);
      NoOther(v, start, end, i, b);
    } else if Shrinks(v, i, want) {
      ShrinkRoom(v, start, end, i, want);
      LiveResize(v, start, end, i, want);
      b := b.(size := want);
      NoOther(v, start, end, i, b);
    } else if !Stays(v, i, want) {
      b := LiveMove(v, start, end, i, want);
    }
  }

  lemma NoOther(v: View, start: int, end: int, i: nat, b: Block)
    requires Valid(v, start, end) && i < |v.blocks| && b.addr == v.blocks[i].addr
    ensures b !in Live(v) - {v.blocks[i]}
  {
    if b in v.blocks {
      var j :| 0 <= j < |v.blocks| && v.blocks[j] == b;
      SameAddress(v.blocks, start, end, i, j);
    }
  }

  /** A block that moves. */
  lemma LiveMove(v: View, start: int, end: int, i: nat, want: nat) returns (b: Block)
    requires Valid(v, start, end) && Named(v.blocks, v.free) && i < |v.blocks| - 1 && v.blocks[i].used && !Refuses(v, want)
    ensures b.used && b.addr == v.blocks[Chosen(v, want)].addr && b.size >= want && b !in Live(v)
    ensures Live(FreeAt(Alloc(v, want), MovedIndex(v, i, want))) == Live(v) - {v.blocks[i]} + {b}
  {
    var c, k := Chosen(v, want), MovedIndex(v, i, want);
    ChosenFits(v, start, end, want);
    AllocKeepsBlock(v, start, end, i, want);
    AllocKeepsValid(v, start, end, c, want);
    LiveAlloc(v, start, end, c, want);
    AllocIs(v, want);
    b := Carve(v.blocks[c], want)[0];
    hide Valid, AllocAt, Chosen, Refuses, FreeAt;
    LiveFree(Alloc(v, want), start, end, k);
  }

  /** Allocating and freeing at once restores the partition and the free bytes. */
  lemma AllocThenFree(v: View, start: int, end: int, want: nat)
    requires Valid(v, start, end) && !Refuses(v, want)
    ensures var w, i := Alloc(v, want), Chosen(v, want);
      i < |w.blocks| - 1 && w.blocks[i].used && FreeAt(w, i).blocks == v.blocks
      && forall f :: f in FreeAt(w, i).free <==> f in v.free
  {
    ListedHas(v, start, end);
    hide Valid, FirstFit, FreeAt, AllocAt;
    AllocIs(v, want);
    var i := Chosen(v, want);
    ChosenFits(v, start, end, want);
    var w := AllocAt(v, i, want);
    AllocKeepsValid(v, start, end, i, want);
    AllocIndex(v, i, want);
    LiveAlloc(v, start, end, i, want);
    FreeKeepsValid(w, start, end, i);
    LiveFree(w, start, end, i);
    assert Live(FreeAt(w, i)) == Live(v);
    Canonical(FreeAt(w, i), v, start, end);
  }

  // ---- conservation

  function UsedBytes(bs: seq<Block>): int {
    if bs == [] then 0 else (if bs[0].used then bs[0].size else 0) + UsedBytes(bs[1..])
  }

  lemma {:induction false} ExtentSplits(bs: seq<Block>)
    ensures Extent(bs) == FreeBytes(bs) + UsedBytes(bs) + HEADER * |bs|
  {
    if bs != [] {
      ExtentSplits(bs[1..]);
    }
  }

  lemma {:induction false} ExtentTiled(xs: seq<Block>, a: int, end: int)
    requires TiledFrom(xs, a, end) && Merged(xs)
    ensures Extent(xs) == end + HEADER - a
  {
    if |xs| > 1 {
      TailTiled(xs, a, end);
      ExtentTiled(xs[1..], xs[0].End(), end);
    } else {
      assert Extent(xs[1..]) == 0;
    }
  }

  /** Free payload, payload in use and one header per block add up to the pool. */
  lemma Conservation(v: View, start: int, pool: int)
    requires Valid(v, start, start + pool - HEADER)
    ensures FreeBytes(v.blocks) + UsedBytes(v.blocks) + HEADER * |v.blocks| == pool
  {
    ExtentSplits(v.blocks);
    ExtentTiled(v.blocks, start, start + pool - HEADER);
  }

  // ---- refused requests

  lemma {:induction false} FreeBytesAtLeast(bs: seq<Block>, i: nat)
    requires i < |bs| && !bs[i].used && forall j :: 0 <= j < |bs| ==> bs[j].size >= 0
    ensures FreeBytes(bs) >= bs[i].size
  {
    FreeBytesNonNegative(bs[1..]);
    if i > 0 {
      FreeBytesAtLeast(bs[1..], i - 1);
    }
  }

  lemma {:induction false} FreeBytesNonNegative(bs: seq<Block>)
    requires forall j :: 0 <= j < |bs| ==> bs[j].size >= 0
    ensures FreeBytes(bs) >= 0
  {
    if bs != [] {
      FreeBytesNonNegative(bs[1..]);
    }
  }

  ghost predicate SomeFreeBlock(v: View, want: int) {
    exists i :: 0 <= i < |v.blocks| && !v.blocks[i].used && v.blocks[i].size >= want
  }

  /** The free-list search finds a block exactly when some free block is large enough. */
  lemma SearchIsComplete(v: View, start: int, end: int, want: int)
    requires Valid(v, start, end)
    ensures FirstFit(v, want).Some? <==> SomeFreeBlock(v, want)
  {
    FirstFitFits(v, want, 0);
    if FirstFit(v, want).Some? {
      ChosenFits(v, start, end, want);
    } else if SomeFreeBlock(v, want) {
      var i :| 0 <= i < |v.blocks| && !v.blocks[i].used && v.blocks[i].size >= want;
      assert v.blocks[i].addr in v.free;
      var j :| 0 <= j < |v.free| && v.free[j] == v.blocks[i].addr;
      SameAddress(v.blocks, start, end, i, Find(v.blocks, v.free[j]));
    }
  }

  /** The strict test makes the heap refuse a request that a block would fit in exactly one situation: an exact fit of the only free bytes. */
  lemma RefusedThoughItFits(v: View, start: int, end: int, want: int)
    requires Valid(v, start, end)
    ensures Refuses(v, want) && SomeFreeBlock(v, want)
       <==> FreeBytes(v.blocks) == want && exists i :: 0 <= i < |v.blocks| && !v.blocks[i].used && v.blocks[i].size == want
  {
    SearchIsComplete(v, start, end, want);
    if SomeFreeBlock(v, want) {
      var i :| 0 <= i < |v.blocks| && !v.blocks[i].used && v.blocks[i].size >= want;
      FreeBytesAtLeast(v.blocks, i);
    }
  }

  /** Such a situation: asking a new heap for all it reports as available. */
  lemma NewHeapRefusesAll(start: int, pool: int)
    requires pool >= 2 * HEADER
    ensures Named(Initial(start, pool).blocks, Initial(start, pool).free)
    ensures Refuses(Initial(start, pool), pool - 2 * HEADER) && SomeFreeBlock(Initial(start, pool), pool - 2 * HEADER)
  {
    var v := Initial(start, pool);
    InitialValid(start, pool);
    assert v.blocks[0].size == pool - 2 * HEADER;
    RefusedThoughItFits(v, start, start + pool - HEADER, pool - 2 * HEADER);
  }

  // ---- which way a request goes, by addresses

  /** A block is cut in two when it is served exactly if what is left of it holds a header and a least payload. */
  lemma SplitsWhere(v: View, start: int, end: int, i: nat, want: nat)
    requires Valid(v, start, end) && i < |v.blocks| - 1 && !v.blocks[i].used && want <= v.blocks[i].size
    ensures var w := AllocAt(v, i, want); var cut := v.blocks[i].addr + HEADER + want;
      && i < |w.blocks| && w.blocks[i].addr == v.blocks[i].addr
      && (cut + HEADER + MINIALLOC <= v.blocks[i + 1].addr ==> w.blocks[i].End() == cut && |w.blocks| == |v.blocks| + 1)
      && (cut + HEADER + MINIALLOC > v.blocks[i + 1].addr ==> w.blocks[i].End() == v.blocks[i + 1].addr && |w.blocks| == |v.blocks|)
  {
    AllocIndex(v, i, want);
    assert v.blocks[i].End() == v.blocks[i + 1].addr;
  }

  /** A block that is to hold no more than it does is cut exactly if it has room within, and otherwise nothing changes; one that
      is to hold more grows if it has room behind it, and otherwise moves, unless the heap refuses. */
  lemma ReallocWhere(v: View, start: int, end: int, i: nat, want: nat)
    requires Valid(v, start, end) && Named(v.blocks, v.free) && i < |v.blocks| - 1 && v.blocks[i].used
    ensures want <= v.blocks[i].size && RoomWithin(v, i, want) ==> HeapSpec.Realloc(v, i, want) == ResizeAt(v, i, want)
    ensures want <= v.blocks[i].size && !RoomWithin(v, i, want) ==> HeapSpec.Realloc(v, i, want) == v
    ensures want > v.blocks[i].size && RoomBehind(v, i, want) ==> HeapSpec.Realloc(v, i, want) == ResizeAt(v, i, want)
    ensures want > v.blocks[i].size && !RoomBehind(v, i, want) ==>
      HeapSpec.Realloc(v, i, want) == if Refuses(v, want) then v else FreeAt(Alloc(v, want), MovedIndex(v, i, want))
  {
    hide Refuses, ResizeAt, Alloc, FreeAt, Named;
    if want > v.blocks[i].size { GrowsWhere(v, start, end, i, want); }
  }

  /** The search takes the first listed block that is large enough, all in front of it being too small. */
  lemma {:induction false} FirstIsFirst(v: View, want: int, k: nat, j: nat)
    requires Named(v.blocks, v.free) && k <= j < |v.free|
    ensures var r := FirstFit(v, want, k);
      && (r.Some? && j < r.value ==> SizeAt(v, v.free[j]) < want)
      && (r.None? ==> SizeAt(v, v.free[j]) < want)
      && (r.Some? ==> SizeAt(v, v.free[r.value]) >= want)
    decreases |v.free| - k
  {
    if SizeAt(v, v.free[k]) < want {
      if k < j {
        FirstIsFirst(v, want, k + 1, j);
      } else if k + 1 < |v.free| {
        FirstIsFirst(v, want, k + 1, k + 1);
      }
    }
  }

  /** Last in, first out: a block that is freed, and stays where it begins, is the next one served if it is large enough. */
  lemma FreedIsNext(v: View, start: int, end: int, i: nat, want: nat)
    requires Valid(v, start, end) && i < |v.blocks| - 1 && v.blocks[i].used && !LeftFree(v, i)
    requires want <= Joined(v, i, FreeHi(v, i)).size
    ensures var w := FreeAt(v, i);
      Named(w.blocks, w.free) && FirstFit(w, want).Some? && w.blocks[Chosen(w, want)].addr == v.blocks[i].addr
  {
    var w := FreeAt(v, i);
    FreeKeepsValid(v, start, end, i);
    ListedHas(w, start, end);
    JoinedIndex(v, i);
    assert w.free[0] == v.blocks[i].addr && w.blocks[i] == Joined(v, i, FreeHi(v, i));
    SameAddress(w.blocks, start, end, i, Find(w.blocks, w.free[0]));
  }

  /** So is what is left of a block that has been cut. */
  lemma RestIsNext(v: View, start: int, end: int, i: nat, want: nat, more: nat)
    requires Valid(v, start, end) && i < |v.blocks| - 1 && !v.blocks[i].used && want <= v.blocks[i].size
    requires v.blocks[i].addr + HEADER + want + HEADER + more <= v.blocks[i].End() && more >= MINIALLOC
    ensures var w := AllocAt(v, i, want);
      Named(w.blocks, w.free) && FirstFit(w, more).Some? && w.blocks[Chosen(w, more)].addr == v.blocks[i].addr + HEADER + want
  {
    var w, mid := AllocAt(v, i, want), Carve(v.blocks[i], want);
    AllocKeepsValid(v, start, end, i, want);
    ListedHas(w, start, end);
    SpliceIndex(v.blocks, i, i + 1, mid);
    assert w.free[0] == mid[1].addr && w.blocks[i + 1] == mid[1];
    SameAddress(w.blocks, start, end, i + 1, Find(w.blocks, w.free[0]));
  }

  /** The least number of free bytes during a reallocation: before it, behind it, and while a block that moves is there twice. */
  lemma LowestIsReached(v: View, start: int, end: int, i: nat, want: nat)
    requires Valid(v, start, end) && Named(v.blocks, v.free) && i < |v.blocks| - 1 && v.blocks[i].used
    ensures LowestFree(v, i, want) <= FreeBytes(HeapSpec.Realloc(v, i, want).blocks)
    ensures want > v.blocks[i].size ==> LowestFree(v, i, want) <= FreeBytes(v.blocks)
    ensures want > v.blocks[i].size && !RoomBehind(v, i, want) && !Refuses(v, want) ==> LowestFree(v, i, want) == FreeBytes(Alloc(v, want).blocks)
    ensures want <= v.blocks[i].size || RoomBehind(v, i, want) ==> LowestFree(v, i, want) == FreeBytes(HeapSpec.Realloc(v, i, want).blocks)
  {
    hide Valid, ResizeAt, AllocAt, FreeAt, FreeBytes, Refuses, Chosen, MovedIndex, Named;
    if want > v.blocks[i].size {
      GrowsWhere(v, start, end, i, want);
      if GrowsInPlace(v, i, want) {
        GrowRoom(v, start, end, i, want);
        ResizeFreeBytes(v, start, end, i, want);
      } else if !Refuses(v, want) {
        ListedHas(v, start, end);
        AllocIs(v, want);
        ChosenFits(v, start, end, want);
        AllocFreeBytes(v, Chosen(v, want), want);
        AllocKeepsBlock(v, start, end, i, want);
        AllocKeepsValid(v, start, end, Chosen(v, want), want);
        FreeFreeBytes(Alloc(v, want), start, end, MovedIndex(v, i, want));
        PayloadNotNegative(v, start, end, Chosen(v, want));
      }
    }
  }

  lemma PayloadNotNegative(v: View, start: int, end: int, i: nat)
    requires Valid(v, start, end) && i < |v.blocks|
    ensures v.blocks[i].size >= 0
  {
  }

  // ---- where 32 bits are too few

  /** The block that serves a request holds it exactly when rounding the request up to words does not wrap around. */
  lemma ServedInFull(v: View, start: int, end: int, n: nat)
    requires Valid(v, start, end) && n < SPAN && !Refuses(v, Rounded(n))
    ensures var w, c := Alloc(v, Rounded(n)), Chosen(v, Rounded(n));
      c < |w.blocks| && (w.blocks[c].size >= n <==> n <= SPAN - WORD)
  {
    RoundedTwice(n);
    ChosenFits(v, start, end, Rounded(n));
    AllocIndex(v, Chosen(v, Rounded(n)), Rounded(n));
  }

  /** A witness: a new heap serves a request for 2^32 - 1 bytes with a block of twelve. */
  lemma ServedShort(start: int)
    ensures var v := Initial(start, 1024);
      && Named(v.blocks, v.free) && !Refuses(v, Rounded(SPAN - 1))
      && Alloc(v, Rounded(SPAN - 1)).blocks == [Block(start, 12, true), Block(start + 36, 940, false), Block(start + 1000, 0, true)]
  {
    var v := Initial(start, 1024);
    InitialValid(start, 1024);
    FreeBytesSmall(v.blocks[0], v.blocks[1], v.blocks[1]);
    var i := Find(v.blocks, start);
    assert Rounded(SPAN - 1) == 12 && SizeAt(v, v.free[0]) == 976 && FirstFit(v, 12) == Some(0);
    assert Splice(v.blocks, 0, 1, Carve(v.blocks[0], 12)) == Carve(v.blocks[0], 12) + [v.blocks[1]];
  }

  /** The growth test decides rightly exactly when want + MINIALLOC does not wrap around. */
  lemma GrowTestExactly(size: nat, right: nat, want: nat)
    requires MINIALLOC <= size < want <= SPAN - WORD && size + right < SPAN
    ensures (GrowTest(size, right, want) <==> size + right > want + MINIALLOC) <==> want + MINIALLOC < SPAN
  {
  }

  /** Where rt_memheap_realloc lays the header of the rest, when it grows block i in place. */
  function LaidAt(v: View, i: nat, want: nat): int
    requires i < |v.blocks|
  {
    (v.blocks[i].addr + HEADER + want) % SPAN
  }

  /** A growth that passes the test lays the rest, header and least payload, between the payload it has grown and the block
      behind the neighbour, exactly when the test decides rightly; otherwise it lays it over the header of the block itself. */
  lemma GrowthLands(v: View, start: int, end: int, i: nat, want: nat)
    requires Valid(v, start, end) && 0 <= start && end + HEADER <= SPAN && i < |v.blocks| - 1
    requires v.blocks[i].size < want <= SPAN - WORD && RightFree(v, i) && GrowTest(v.blocks[i].size, v.blocks[i + 1].size, want)
    ensures v.blocks[i].End() <= LaidAt(v, i, want) && LaidAt(v, i, want) + HEADER + MINIALLOC <= v.blocks[i + 1].End()
       <==> GrowthDecides(v, i, want)
    ensures !GrowthDecides(v, i, want) ==> v.blocks[i].addr < LaidAt(v, i, want) < v.blocks[i].addr + HEADER
  {
    var b, c, at := v.blocks[i], v.blocks[i + 1], v.blocks[i].addr + HEADER + want;
    if i > 0 { Ordered(v.blocks, start, end, 0, i); }
    if i + 1 < |v.blocks| - 1 { Ordered(v.blocks, start, end, i + 1, |v.blocks| - 1); }
    assert b.End() == c.addr;
    Reduced(at);
    hide Valid;
  }

  lemma Reduced(x: int)
    ensures 0 <= x < SPAN ==> x % SPAN == x
    ensures SPAN <= x < 2 * SPAN ==> x % SPAN == x - SPAN
  {
  }

  /** A witness: in a pool of 108 bytes a block of twelve beside a free one of 24 is found to have room for nearly all of memory,
      and the new header is laid over the second half of its own. */
  lemma GrowTestWraps()
    ensures var v := View([Block(4096, 12, true), Block(4132, 24, false), Block(4180, 0, true)], [4132]);
      && Valid(v, 4096, 4180) && RightFree(v, 0) && GrowTest(12, 24, SPAN - 12) && Rounded(SPAN - 12) == SPAN - 12
      && !(12 + 24 > SPAN - 12 + MINIALLOC) && LaidAt(v, 0, SPAN - 12) == 4096 + 12
  {
    var v := View([Block(4096, 12, true), Block(4132, 24, false), Block(4180, 0, true)], [4132]);
    assert v.blocks[0].End() == 4132 && v.blocks[1].End() == 4180 && v.blocks[1].addr == 4132;
  }

  /** What rt_memheap_init lays out is a block and the tailer behind it, both inside the pool, exactly from two headers on. */
  lemma FormatFits(start: int, pool: nat)
    requires 0 < start && start + pool <= SPAN
    ensures start + HEADER <= TailerAt(start, pool) && TailerAt(start, pool) + HEADER <= start + pool && InitialFree(pool) <= pool
       <==> pool >= 2 * HEADER
  {
  }

  /** A witness: in a pool of one header the tailer is written over the first block, and nearly all of memory is counted as free. */
  lemma FormatOverlaps()
    ensures TailerAt(0x2000_0000, HEADER) == 0x2000_0000 && InitialFree(HEADER) == SPAN - HEADER
  {
  }

  // ---- whole runs

  datatype Request = Allocate(n: nat) | Release(ptr: int) | Reallocate(ptr: int, n: nat)

  ghost predicate Points(v: View, ptr: int) {
    exists i :: InUse(v, i, ptr)
  }

  /** One call. Pointers that are not in use, and growths that the test in 32 bits cannot decide, are outside the contract
      of the calls and change nothing here. */
  ghost function Serve(v: View, r: Request): View
    requires Named(v.blocks, v.free)
  {
    match r
    case Allocate(n) => Alloc(v, Rounded(n))
    case Release(p) => if Points(v, p) then FreeAt(v, BlockAt(v, p)) else v
    case Reallocate(p, n) =>
      if !Points(v, p) then v
      else if n == 0 then FreeAt(v, BlockAt(v, p))
      else if !GrowthDecides(v, BlockAt(v, p), Rounded(n)) then v
      else HeapSpec.Realloc(v, BlockAt(v, p), Rounded(n))
  }

  ghost function BlockAt(v: View, ptr: int): (i: nat)
    requires Points(v, ptr)
    ensures InUse(v, i, ptr)
  {
    var i: nat :| InUse(v, i, ptr);
    i
  }

  ghost function Run(v: View, rs: seq<Request>, start: int, end: int): (w: View)
    requires Valid(v, start, end)
    ensures Valid(w, start, end)
    decreases |rs|
  {
    if rs == [] then v else
      ServeKeepsValid(v, rs[0], start, end);
      Run(Serve(v, rs[0]), rs[1..], start, end)
  }

  lemma ServeKeepsValid(v: View, r: Request, start: int, end: int)
    requires Valid(v, start, end)
    ensures Valid(Serve(v, r), start, end)
  {
    match r
    case Allocate(n) => AllocValid(v, start, end, Rounded(n));
    case Release(p) => if Points(v, p) { FreeKeepsValid(v, start, end, BlockAt(v, p)); }
    case Reallocate(p, n) => if Points(v, p) {
      FreeKeepsValid(v, start, end, BlockAt(v, p));
      ReallocValid(v, start, end, BlockAt(v, p), Rounded(n));
    }
  }

  lemma AllocValid(v: View, start: int, end: int, want: nat)
    requires Valid(v, start, end)
    ensures Valid(Alloc(v, want), start, end)
  {
    if !Refuses(v, want) {
      ChosenFits(v, start, end, want);
      AllocKeepsValid(v, start, end, Chosen(v, want), want);
    }
  }

  lemma ReallocValid(v: View, start: int, end: int, i: nat, want: nat)
    requires Valid(v, start, end) && i < |v.blocks| - 1 && v.blocks[i].used
    ensures Valid(HeapSpec.Realloc(v, i, want), start, end)
  {
    if GrowsInPlace(v, i, want) {
      GrowRoom(v, start, end, i, want);
      ResizeKeepsValid(v, start, end, i, want);
    } else if Shrinks(v, i, want) {
      ShrinkRoom(v, start, end, i, want);
      ResizeKeepsValid(v, start, end, i, want);
    } else if !Stays(v, i, want) && !Refuses(v, want) {
      AllocValid(v, start, end, want);
      AllocKeepsBlock(v, start, end, i, want);
      FreeKeepsValid(Alloc(v, want), start, end, MovedIndex(v, i, want));
    }
  }

  /** Any two runs from a new heap that leave the same blocks in use leave the same heap; nothing leaks and nothing is lost. */
  lemma RunsMeet(start: int, pool: int, rs: seq<Request>, qs: seq<Request>)
    requires pool >= 2 * HEADER
    ensures var end := start + pool - HEADER;
      && Valid(Initial(start, pool), start, end)
      && var v, w := Run(Initial(start, pool), rs, start, end), Run(Initial(start, pool), qs, start, end);
      && (Live(v) == Live(w) ==> v.blocks == w.blocks)
      && FreeBytes(v.blocks) + UsedBytes(v.blocks) + HEADER * |v.blocks| == pool
      && (Live(v) == {Block(end, 0, true)} ==> v == Initial(start, pool))
  {
    hide Run, Live, FreeBytes, UsedBytes, Valid;
    var end := start + pool - HEADER;
    InitialValid(start, pool);
    var v, w := Run(Initial(start, pool), rs, start, end), Run(Initial(start, pool), qs, start, end);
    Conservation(v, start, pool);
    if Live(v) == Live(w) { Canonical(v, w, start, end); }
    if Live(v) == {Block(end, 0, true)} { AllFreed(v, start, pool); }
  }
}
