// What the small-memory allocator promises its callers: first fit, when a request is
// refused, which blocks stay live, and that freeing undoes allocating.
module SmallTheorems {
  import opened Seqs
  import opened Words
  import opened SmallSpec
  import opened SmallLaws

  // ---- the search

  /** Starting at the lowest free block finds what a search of the whole heap finds. */
  lemma {:induction false} SearchFromLowest(bs: seq<Block>, k: nat, size: nat, limit: nat)
    requires k <= LowestIndex(bs)
    ensures FirstFit(bs, k, size, limit) == FirstFit(bs, 0, size, limit)
  {
    if k > 0 {
      SearchFromLowest(bs, k - 1, size, limit);
      assert bs[k - 1].used;
    }
  }

  ghost predicate HasRoom(bs: seq<Block>, i: nat, size: nat)
    requires i < |bs|
  {
    !bs[i].used && bs[i].Room() >= size
  }

  /** The loop of rt_malloc stands at block k, or at heap_end, which is used and whose next field points to itself. */
  function CursorStart(bs: seq<Block>, k: nat, end: nat): nat {
    if k < |bs| then bs[k].start else end
  }

  function Cursor(bs: seq<Block>, k: nat, steps: nat): nat
    decreases steps
  {
    if steps == 0 then k else Cursor(bs, if k < |bs| then k + 1 else k, steps - 1)
  }

  predicate Stops(bs: seq<Block>, k: nat, size: nat, limit: nat) {
    CursorStart(bs, k, limit + HEADER) >= Bound(limit, size) || (k < |bs| && Takes(bs[k], size, limit))
  }

  ghost predicate StopsAfter(bs: seq<Block>, size: nat, limit: nat, steps: nat) {
    Stops(bs, Cursor(bs, LowestIndex(bs), steps), size, limit)
  }

  /** rt_malloc comes back: it does not search at all, or the loop stops after some number of steps. */
  ghost predicate Returns(bs: seq<Block>, size: nat, limit: nat) {
    size == 0 || AlignUp(size) > limit || exists n: nat :: StopsAfter(bs, Wanted(size), limit, n)
  }

  lemma {:induction false} CursorWalks(bs: seq<Block>, k: nat, steps: nat)
    requires k <= |bs|
    ensures Cursor(bs, k, steps) == if k + steps < |bs| then k + steps else |bs|
    decreases steps
  {
    if steps > 0 { CursorWalks(bs, if k < |bs| then k + 1 else k, steps - 1); }
  }

  /** A heap with less than a smallest block of room never stops a search. */
  lemma NeverStops(bs: seq<Block>, k: nat, size: nat, limit: nat)
    requires Tiled(bs, limit + HEADER) && limit < MIN_SIZE <= size && size < SPAN - 2 * HEADER
    ensures !Stops(bs, k, size, limit)
  {
    if k < |bs| {
      BeforeEnd(bs, limit + HEADER, k);
    }
  }

  /** rt_malloc comes back exactly when it is not a small request that passes the size test of a heap with no room
      for a smallest block. */
  lemma ReturnsExactly(bs: seq<Block>, size: nat, limit: nat)
    requires Valid(bs, limit + HEADER) && limit < SPAN
    ensures Returns(bs, size, limit) <==> !SpinsOn(size, limit)
  {
    hide Tiled;
    var k, w := LowestIndex(bs), Wanted(size);
    if SpinsOn(size, limit) {
      forall n: nat
        ensures !StopsAfter(bs, w, limit, n)
      {
        NeverStops(bs, Cursor(bs, k, n), w, limit);
      }
    } else if size > 0 && AlignUp(size) <= limit {
      CursorWalks(bs, k, |bs|);
      assert StopsAfter(bs, w, limit, |bs|);
    }
  }

  /** A witness: rt_malloc(4) on a heap of 8 bytes stands at heap_end from the second step on, still within its bound. */
  lemma SpinsAtEnd(steps: nat)
    requires steps > 0
    ensures var bs := [Block(0, 8 + HEADER, false)];
      && Valid(bs, 8 + HEADER) && LowestIndex(bs) == 0 && SpinsOn(4, 8)
      && CursorStart(bs, Cursor(bs, 0, steps), 8 + HEADER) == 8 + HEADER < Bound(8, Wanted(4))
      && !StopsAfter(bs, Wanted(4), 8, steps)
  {
    var bs := [Block(0, 8 + HEADER, false)];
    CursorWalks(bs, 0, steps);
  }

  /** The strict bound of the search shuts out one block only: a last block that fits exactly. */
  lemma TakesOrLast(bs: seq<Block>, i: nat, size: nat, limit: nat)
    requires Tiled(bs, limit + HEADER) && limit < SPAN && i < |bs| && HasRoom(bs, i, size)
    ensures Takes(bs[i], size, limit) <==> !(i == |bs| - 1 && bs[i].Room() == size)
  {
    BeforeEnd(bs, limit + HEADER, i);
    if i < |bs| - 1 {
      Apart(bs, limit + HEADER, i, |bs| - 1);
      BeforeEnd(bs, limit + HEADER, |bs| - 1);
    }
  }

  /** A request is refused exactly when no free block has room for it, the last one not counting if it fits exactly. */
  lemma RefusedExactly(bs: seq<Block>, size: nat, limit: nat)
    requires Tiled(bs, limit + HEADER) && limit < SPAN && size > 0 && AlignUp(size) <= limit && !SpinsOn(size, limit)
    ensures Refuses(bs, size, limit) <==>
      forall i :: 0 <= i < |bs| && HasRoom(bs, i, Wanted(size)) ==> i == |bs| - 1 && bs[i].Room() == Wanted(size)
  {
    var w := Wanted(size);
    forall i | 0 <= i < |bs| && HasRoom(bs, i, w)
      ensures Takes(bs[i], w, limit) <==> !(i == |bs| - 1 && bs[i].Room() == w)
    {
      TakesOrLast(bs, i, w, limit);
    }
    var f := FirstFit(bs, 0, w, limit);
    if f < |bs| {
      assert HasRoom(bs, f, w);
    }
  }

  /** rt_malloc fails although a free block has room: exactly when that block is the last, fits exactly, and is the only one. */
  lemma RefusedThoughItFits(bs: seq<Block>, size: nat, limit: nat)
    requires Tiled(bs, limit + HEADER) && limit < SPAN && size > 0 && AlignUp(size) <= limit && !SpinsOn(size, limit)
    ensures var w := Wanted(size); var last := |bs| - 1;
      Refuses(bs, size, limit) && (exists i :: 0 <= i < |bs| && HasRoom(bs, i, w)) <==>
      (HasRoom(bs, last, w) && bs[last].Room() == w && forall i :: 0 <= i < last ==> !HasRoom(bs, i, w))
  {
    RefusedExactly(bs, size, limit);
  }

  /** A new heap has all its bytes free, and refuses a request for all of them. */
  lemma NewHeapRefusesAll(size: nat, limit: nat)
    requires limit % 4 == 0 && limit < SPAN && !SpinsOn(size, limit)
    ensures Valid([Block(0, limit + HEADER, false)], limit + HEADER)
    ensures Refuses([Block(0, limit + HEADER, false)], size, limit) <==> size == 0 || Wanted(size) >= limit
  {
    var bs := [Block(0, limit + HEADER, false)];
    if size > 0 && AlignUp(size) <= limit {
      RefusedExactly(bs, size, limit);
      assert HasRoom(bs, 0, Wanted(size)) <==> limit >= Wanted(size);
    }
  }

  // ---- freeing undoes allocating

  lemma SplitThenJoin(bs: seq<Block>, i: nat, cut: nat)
    requires i < |bs| && !bs[i].used
    ensures i < |Split(bs, i, cut)| && Split(bs, i, cut)[i].used
    ensures JoinRight(SetUsed(Split(bs, i, cut), i, false), i) == bs
  {
    var mid := [Block(bs[i].start, cut, true), Block(cut, bs[i].end, false)];
    Positions(bs, i, i + 1, mid);
    var r := Split(bs, i, cut);
    assert r[i] == mid[0] && r[i + 1] == mid[1];
    var q := SetUsed(r, i, false);
    var whole := [Block(q[i].start, q[i + 1].end, q[i].used)];
    assert whole == [bs[i]];
    assert q[..i] == bs[..i] && q[i + 2..] == bs[i + 1..];
    assert bs == bs[..i] + [bs[i]] + bs[i + 1..];
  }

  /** Freed again at once, an allocated block leaves no trace: the blocks are what they were. */
  lemma TakeThenFree(bs: seq<Block>, end: nat, i: nat, size: nat)
    requires Valid(bs, end) && i < |bs| && !bs[i].used && bs[i].Room() >= size
    ensures i < |TakeAt(bs, i, size)| && TakeAt(bs, i, size)[i].used
    ensures FreeAt(TakeAt(bs, i, size), i) == bs
  {
    hide Tiled, Split, Join;
    assert i > 0 ==> Parted(bs, i - 1);
    assert i + 1 < |bs| ==> Parted(bs, i);
    if bs[i].Room() >= size + HEADER + MIN_SIZE {
      SplitThenJoin(bs, i, bs[i].start + HEADER + size);
    } else {
      assert SetUsed(SetUsed(bs, i, true), i, false) == bs;
    }
  }

  // ---- live blocks

  ghost predicate Live(bs: seq<Block>, b: Block) {
    b in bs && b.used
  }

  lemma Alone(bs: seq<Block>, end: nat, i: nat, j: nat)
    requires Tiled(bs, end) && i < |bs| && j < |bs| && i != j
    ensures bs[i] != bs[j]
  {
    assert Shaped(bs[i]) && Shaped(bs[j]);
    if i < j { Apart(bs, end, i, j); } else { Apart(bs, end, j, i); }
  }

  /** Members after a replacement. */
  lemma MembersReplaced(bs: seq<Block>, end: nat, lo: nat, hi: nat, mid: seq<Block>, b: Block)
    requires Tiled(bs, end) && lo <= hi <= |bs|
    ensures b in bs[..lo] + mid + bs[hi..] <==> b in mid || (b in bs && b !in bs[lo..hi])
  {
    var r := bs[..lo] + mid + bs[hi..];
    Parts(bs, lo, hi);
    if b in r && b !in mid {
      if b in bs[..lo] {
        var k :| 0 <= k < lo && bs[k] == b;
        forall j | lo <= j < hi ensures bs[j] != b { Alone(bs, end, k, j); }
      } else {
        var k :| hi <= k < |bs| && bs[k] == b;
        forall j | lo <= j < hi ensures bs[j] != b { Alone(bs, end, k, j); }
      }
    }
  }

  lemma LiveSet(bs: seq<Block>, end: nat, i: nat, used: bool, b: Block)
    requires Tiled(bs, end) && i < |bs|
    ensures Live(SetUsed(bs, i, used), b) <==> (b == bs[i].(used := true) && used) || (Live(bs, b) && b != bs[i])
  {
    MembersReplaced(bs, end, i, i + 1, [bs[i].(used := used)], b);
    assert SetUsed(bs, i, used) == bs[..i] + [bs[i].(used := used)] + bs[i + 1..];
  }

  lemma LiveSplit(bs: seq<Block>, end: nat, i: nat, cut: nat, b: Block)
    requires Tiled(bs, end) && i < |bs|
    ensures Live(Split(bs, i, cut), b) <==> b == Block(bs[i].start, cut, true) || (Live(bs, b) && b != bs[i])
  {
    MembersReplaced(bs, end, i, i + 1, [Block(bs[i].start, cut, true), Block(cut, bs[i].end, false)], b);
  }

  lemma LiveJoin(bs: seq<Block>, end: nat, i: nat, b: Block)
    requires Tiled(bs, end) && i + 1 < |bs| && !bs[i].used && !bs[i + 1].used
    ensures Live(Join(bs, i), b) <==> Live(bs, b)
  {
    MembersReplaced(bs, end, i, i + 2, [Block(bs[i].start, bs[i + 1].end, bs[i].used)], b);
    assert bs[i..i + 2] == [bs[i], bs[i + 1]];
  }

  lemma LivePlug(bs: seq<Block>, end: nat, i: nat, b: Block)
    requires Tiled(bs, end) && i < |bs| && !bs[i].used
    ensures Live(PlugHoles(bs, i), b) <==> Live(bs, b)
  {
    hide Live, Join, Tiled;
    var r := JoinRight(bs, i);
    JoinedFree(bs, i);
    if i + 1 < |bs| && !bs[i + 1].used {
      LiveJoin(bs, end, i, b);
      JoinTiled(bs, end, i);
    }
    if i > 0 && !r[i - 1].used { LiveJoin(r, end, i - 1, b); }
  }

  /** An allocation adds one block, cut from the front of a free one, and leaves every live block as it was. */
  lemma LiveTake(bs: seq<Block>, end: nat, i: nat, size: nat, b: Block)
    requires Tiled(bs, end) && i < |bs| && !bs[i].used && bs[i].Room() >= size
    ensures var r := TakeAt(bs, i, size);
      && i < |r| && r[i].start == bs[i].start && r[i].end <= bs[i].end && r[i].used && r[i].Room() >= size
      && (Live(r, b) <==> b == r[i] || Live(bs, b))
      && (Live(bs, b) ==> b.end <= r[i].start || r[i].end <= b.start)
  {
    if bs[i].Room() >= size + HEADER + MIN_SIZE {
      var cut := bs[i].start + HEADER + size;
      LiveSplit(bs, end, i, cut, b);
      var mid := [Block(bs[i].start, cut, true), Block(cut, bs[i].end, false)];
      Positions(bs, i, i + 1, mid);
      assert TakeAt(bs, i, size)[i] == mid[0];
    } else {
      LiveSet(bs, end, i, true, b);
    }
    if Live(bs, b) {
      var k :| 0 <= k < |bs| && bs[k] == b;
      if k < i { Apart(bs, end, k, i); } else { Apart(bs, end, i, k); }
    }
  }

  /** Freeing removes one live block and touches no other. */
  lemma LiveFree(bs: seq<Block>, end: nat, i: nat, b: Block)
    requires Tiled(bs, end) && i < |bs| && bs[i].used
    ensures Live(FreeAt(bs, i), b) <==> Live(bs, b) && b != bs[i]
  {
    LiveSet(bs, end, i, false, b);
    SetTiled(bs, end, i, false);
    LivePlug(SetUsed(bs, i, false), end, i, b);
  }

  /** Shrinking in place keeps the front of one live block and touches no other. */
  lemma LiveCut(bs: seq<Block>, end: nat, i: nat, newsize: nat, b: Block)
    requires Tiled(bs, end) && i < |bs| && bs[i].used && Cuts(bs[i], newsize) && newsize % 4 == 0
    ensures i + 1 < |Split(bs, i, bs[i].start + HEADER + newsize)|
    ensures Live(CutAt(bs, i, newsize), b) <==>
      b == Block(bs[i].start, bs[i].start + HEADER + newsize, true) || (Live(bs, b) && b != bs[i])
  {
    hide Live, Tiled, PlugHoles, Split;
    ShapeAt(bs, end, i);
    var cut := bs[i].start + HEADER + newsize;
    LiveSplit(bs, end, i, cut, b);
    SplitTiled(bs, end, i, cut);
    LivePlug(Split(bs, i, cut), end, i + 1, b);
  }

  lemma ShapeAt(bs: seq<Block>, end: nat, i: nat)
    requires Tiled(bs, end) && i < |bs|
    ensures bs[i].start + HEADER <= bs[i].end && bs[i].start % 4 == 0
  {
    assert Shaped(bs[i]);
  }

  // ---- which way a reallocation goes, by addresses

  /** A block is cut in place exactly if there is room within it for a header and more than a least payload. */
  lemma CutsWhere(b: Block, newsize: nat)
    ensures Cuts(b, newsize) <==> RoomWithin(b, newsize)
  {
  }

  /** A block is cut in two when it is served exactly if what is left of it holds a header and a least payload. */
  lemma SplitsWhere(bs: seq<Block>, end: nat, i: nat, size: nat)
    requires Tiled(bs, end) && i < |bs| && !bs[i].used && bs[i].Room() >= size
    ensures var r := TakeAt(bs, i, size); var cut := bs[i].start + HEADER + size;
      && i < |r| && r[i].start == bs[i].start && r[i].used
      && (cut + HEADER + MIN_SIZE <= bs[i].end ==> r[i].end == cut && |r| == |bs| + 1)
      && (cut + HEADER + MIN_SIZE > bs[i].end ==> r[i].end == bs[i].end && |r| == |bs|)
  {
    var cut := bs[i].start + HEADER + size;
    Positions(bs, i, i + 1, [Block(bs[i].start, cut, true), Block(cut, bs[i].end, false)]);
  }

  /** A block with free room behind it, but not enough within, is moved even to be made smaller; so a request for less than it has
      comes to nothing exactly if it leaves less than a header and a least payload over, at least a word, and the heap refuses it. */
  lemma ShrinkStuck(bs: seq<Block>, end: nat, i: nat, size: nat, limit: nat)
    requires Tiled(bs, end) && i < |bs| && size <= bs[i].Room()
    ensures Stuck(bs, i, size, limit) <==> 0 < bs[i].Room() - size <= HEADER + MIN_SIZE && Refuses(bs, size, limit)
  {
  }

  /** A witness: in a heap of 1024 bytes a block of 1000, asked to make do with 996, gets NULL. */
  lemma ShrinkRefused()
    ensures var bs := [Block(0, 1000 + HEADER, true), Block(1000 + HEADER, 1024 + HEADER, false)];
      Tiled(bs, 1024 + HEADER) && NoNeighbours(bs) && Stuck(bs, 0, 996, 1024)
  {
    var bs := [Block(0, 1000 + HEADER, true), Block(1000 + HEADER, 1024 + HEADER, false)];
    assert FirstFit(bs, 2, 996, 1024) == 2 && FirstFit(bs, 1, 996, 1024) == 2;
  }

  // ---- where 32 bits are too few

  /** The block that serves a request holds it exactly when rounding the request up to words does not wrap around. */
  lemma ServedInFull(bs: seq<Block>, end: nat, size: nat, limit: nat)
    requires Tiled(bs, end) && size < SPAN && !Refuses(bs, size, limit)
    ensures var w, i := Wanted(size), FirstFit(bs, 0, Wanted(size), limit);
      i < |TakeAt(bs, i, w)| && (TakeAt(bs, i, w)[i].Room() >= size <==> size <= SPAN - WORD)
  {
    var w, i := Wanted(size), FirstFit(bs, 0, Wanted(size), limit);
    if bs[i].Room() >= w + HEADER + MIN_SIZE {
      var cut := bs[i].start + HEADER + w;
      Positions(bs, i, i + 1, [Block(bs[i].start, cut, true), Block(cut, bs[i].end, false)]);
      assert TakeAt(bs, i, w)[i] == Block(bs[i].start, cut, true);
    }
  }

  /** A witness: a new heap of 1024 bytes serves a request for 2^32 - 1 with a block of twelve. */
  lemma ServedShort()
    ensures var bs := [Block(0, 1024 + HEADER, false)];
      && Tiled(bs, 1024 + HEADER) && !Refuses(bs, SPAN - 1, 1024)
      && FirstFit(bs, 0, Wanted(SPAN - 1), 1024) == 0 && TakeAt(bs, 0, Wanted(SPAN - 1))[0] == Block(0, HEADER + 12, true)
  {
  }

  /** When rt_realloc returns NULL the old block is still there exactly if the new size is not 0, neither as given nor
      after it has been rounded up in 32 bits. */
  lemma NullKeepsExactly(bs: seq<Block>, end: nat, i: nat, newsize: nat)
    requires Tiled(bs, end) && i < |bs| && bs[i].used && newsize < SPAN
    ensures Live(NullOutcome(bs, i, newsize), bs[i]) <==> 0 < newsize <= SPAN - WORD
  {
    LiveFree(bs, end, i, bs[i]);
  }

  /** A witness: asked to hold 2^32 - 1 bytes, a block is freed. */
  lemma NullFrees()
    ensures Tiled([Block(0, 64, true)], 64) && NullOutcome([Block(0, 64, true)], 0, SPAN - 1) == [Block(0, 64, false)]
  {
  }

  // ---- conservation

  function FreeExtent(bs: seq<Block>): int {
    if bs == [] then 0 else (if bs[0].used then 0 else bs[0].end - bs[0].start) + FreeExtent(bs[1..])
  }

  lemma {:induction false} SumToEnd(bs: seq<Block>, i: nat, end: nat)
    requires Tiled(bs, end) && i < |bs|
    ensures UsedBytes(bs[i..]) + FreeExtent(bs[i..]) == end - bs[i].start
    decreases |bs| - i
  {
    assert bs[i..][0] == bs[i] && bs[i..][1..] == bs[i + 1..];
    if i + 1 < |bs| {
      assert Meets(bs, i);
      SumToEnd(bs, i + 1, end);
    }
  }

  /** Used and free extents always add up to the whole heap. */
  lemma Conservation(bs: seq<Block>, end: nat)
    requires Tiled(bs, end)
    ensures UsedBytes(bs) + FreeExtent(bs) == end
  {
    SumToEnd(bs, 0, end);
    assert bs[0..] == bs;
  }
}
