// The allocator of mem.c at work on its headers: used, next and prev fields by offset,
// the lfree pointer, and the byte counters. The headers are proved to spell out a list of
// blocks as in SmallSpec before and after every call; the link back from heap_end, which
// the code neither maintains nor reads, is the one field of which nothing is said.
module SmallHeap {
  import opened Seqs
  import opened Words
  import opened SmallSpec
  import opened SmallLaws
  import opened SmallTheorems

  // ---- headers that spell out a block list

  ghost predicate HeldAt(used: map<nat, bool>, next: map<nat, nat>, prev: map<nat, nat>, bs: seq<Block>, i: nat)
    requires i < |bs|
  {
    var a := bs[i].start;
    && a in used && used[a] == bs[i].used
    && a in next && next[a] == bs[i].end
    && a in prev && prev[a] == if i == 0 then 0 else bs[i - 1].start
  }

  /** heap_end is a used header that points to itself; its prev field is never read. */
  ghost predicate Held(used: map<nat, bool>, next: map<nat, nat>, prev: map<nat, nat>, bs: seq<Block>, end: nat) {
    && (forall i {:trigger HeldAt(used, next, prev, bs, i)} :: 0 <= i < |bs| ==> HeldAt(used, next, prev, bs, i))
    && end in used && used[end] && end in next && next[end] == end
  }

  lemma StartsApart(bs: seq<Block>, end: nat, i: nat, j: nat)
    requires Tiled(bs, end) && i < |bs| && j < |bs| && i != j
    ensures bs[i].start != bs[j].start && bs[j].start < end && bs[i].start < bs[i].end <= end
    ensures bs[j].start < bs[i].start || bs[i].end <= bs[j].start
    ensures bs[j].start == bs[i].end <==> j == i + 1
  {
    ShapeAt(bs, end, i);
    ShapeAt(bs, end, j);
    BeforeEnd(bs, end, i);
    BeforeEnd(bs, end, j);
    if i < j {
      Apart(bs, end, i, j);
      assert Meets(bs, i);
      if i + 1 < j { Apart(bs, end, i + 1, j); ShapeAt(bs, end, i + 1); }
    } else {
      Apart(bs, end, j, i);
    }
  }

  lemma HeldSet(used: map<nat, bool>, next: map<nat, nat>, prev: map<nat, nat>, bs: seq<Block>, end: nat, i: nat, u: bool)
    requires Held(used, next, prev, bs, end) && Tiled(bs, end) && i < |bs|
    ensures Held(used[bs[i].start := u], next, prev, SetUsed(bs, i, u), end)
  {
    BeforeEnd(bs, end, i);
    var r, used' := SetUsed(bs, i, u), used[bs[i].start := u];
    forall j | 0 <= j < |r|
      ensures HeldAt(used', next, prev, r, j)
    {
      assert HeldAt(used, next, prev, bs, j);
      if j != i { StartsApart(bs, end, i, j); }
    }
  }

  /** The fields after a block has been cut in two. */
  lemma HeldSplit(used: map<nat, bool>, next: map<nat, nat>, prev: map<nat, nat>, bs: seq<Block>, end: nat, i: nat, cut: nat,
                  prev': map<nat, nat>)
    requires Held(used, next, prev, bs, end) && Tiled(bs, end) && i < |bs|
    requires bs[i].start + HEADER <= cut && cut + HEADER <= bs[i].end
    requires prev' == if bs[i].end != end then prev[cut := bs[i].start][bs[i].end := cut] else prev[cut := bs[i].start]
    ensures Held(used[cut := false][bs[i].start := true], next[cut := bs[i].end][bs[i].start := cut], prev', Split(bs, i, cut), end)
  {
    BeforeEnd(bs, end, i);
    var mid := [Block(bs[i].start, cut, true), Block(cut, bs[i].end, false)];
    Positions(bs, i, i + 1, mid);
    var r := Split(bs, i, cut);
    assert r[i] == mid[0] && r[i + 1] == mid[1];
    var used', next' := used[cut := false][bs[i].start := true], next[cut := bs[i].end][bs[i].start := cut];
    assert HeldAt(used, next, prev, bs, i);
    forall j | 0 <= j < |r|
      ensures HeldAt(used', next', prev', r, j)
    {
      if j < i {
        assert HeldAt(used, next, prev, bs, j);
        StartsApart(bs, end, i, j);
      } else if j > i + 1 {
        assert HeldAt(used, next, prev, bs, j - 1);
        StartsApart(bs, end, i, j - 1);
      }
    }
  }

  /** The fields after a block has swallowed its right neighbour. */
  lemma HeldJoin(used: map<nat, bool>, next: map<nat, nat>, prev: map<nat, nat>, bs: seq<Block>, end: nat, i: nat)
    requires Held(used, next, prev, bs, end) && Tiled(bs, end) && i + 1 < |bs|
    ensures Held(used, next[bs[i].start := bs[i + 1].end], prev[bs[i + 1].end := bs[i].start], Join(bs, i), end)
  {
    BeforeEnd(bs, end, i);
    BeforeEnd(bs, end, i + 1);
    var mid := [Block(bs[i].start, bs[i + 1].end, bs[i].used)];
    Positions(bs, i, i + 2, mid);
    var r := Join(bs, i);
    assert r[i] == mid[0];
    var next', prev' := next[bs[i].start := bs[i + 1].end], prev[bs[i + 1].end := bs[i].start];
    assert HeldAt(used, next, prev, bs, i);
    StartsApart(bs, end, i + 1, i);
    forall j | 0 <= j < |r|
      ensures HeldAt(used, next', prev', r, j)
    {
      var k := if j <= i then j else j + 1;
      assert HeldAt(used, next, prev, bs, k);
      if k != i { StartsApart(bs, end, i, k); }
      if k != i + 1 { StartsApart(bs, end, i + 1, k); }
    }
  }

  // ---- payload bytes

  predicate SameBytes(ram: seq<byte>, ram': seq<byte>, a: nat, z: nat) {
    |ram| == |ram'| && (a <= z <= |ram| ==> ram[a..z] == ram'[a..z])
  }

  /** The payload of every live block but x is what it was. */
  ghost predicate KeepsLive(bs: seq<Block>, ram: seq<byte>, ram': seq<byte>, x: Block) {
    forall b :: Live(bs, b) && b != x ==> SameBytes(ram, ram', b.start + HEADER, b.end)
  }

  function Over(ram: seq<byte>, a: nat, bytes: seq<byte>): (r: seq<byte>)
    requires a + |bytes| <= |ram|
    ensures |r| == |ram|
  {
    ram[..a] + bytes + ram[a + |bytes|..]
  }

  lemma OverKeeps(ram: seq<byte>, a: nat, bytes: seq<byte>, lo: nat, hi: nat)
    requires a + |bytes| <= |ram| && (hi <= a || a + |bytes| <= lo)
    ensures SameBytes(ram, Over(ram, a, bytes), lo, hi)
  {
  }

  /** Writing inside block i leaves the payloads of the others alone. */
  lemma OverLive(bs: seq<Block>, end: nat, ram: seq<byte>, i: nat, a: nat, bytes: seq<byte>)
    requires Tiled(bs, end) && i < |bs| && bs[i].start <= a && a + |bytes| <= bs[i].end && end <= |ram|
    ensures bs[i].end <= end && KeepsLive(bs, ram, Over(ram, a, bytes), bs[i])
  {
    BeforeEnd(bs, end, i);
    forall b | Live(bs, b) && b != bs[i]
      ensures SameBytes(ram, Over(ram, a, bytes), b.start + HEADER, b.end)
    {
      var k :| 0 <= k < |bs| && bs[k] == b;
      if k < i { Apart(bs, end, k, i); } else { Apart(bs, end, i, k); }
      OverKeeps(ram, a, bytes, b.start + HEADER, b.end);
    }
  }

  /** From a block whose start the search bound shuts out, the search finds nothing. */
  lemma NoneBeyond(bs: seq<Block>, end: nat, k: nat, size: nat, limit: nat)
    requires Tiled(bs, end) && k < |bs| && bs[k].start >= Bound(limit, size)
    ensures FirstFit(bs, k, size, limit) == |bs|
  {
    var f := FirstFit(bs, k, size, limit);
    if f < |bs| && k < f {
      Apart(bs, end, k, f);
      ShapeAt(bs, end, k);
    }
  }

  class MemoryPool {
    const limit: nat              // mem_size_aligned
    var used: map<nat, bool>
    var next: map<nat, nat>
    var prev: map<nat, nat>
    var ram: seq<byte>
    var lfree: nat
    var usedMem: int
    var maxMem: int
    ghost var bs: seq<Block>

    function End(): nat {
      limit + HEADER
    }

    ghost predicate Linked()
      reads this
    {
      Held(used, next, prev, bs, End()) && |ram| == limit + 2 * HEADER
    }

    ghost predicate Valid()
      reads this
    {
      && limit % 4 == 0 && limit + 2 * HEADER < SPAN
      && SmallSpec.Valid(bs, End()) && Linked()
      && lfree == Lowest(bs, End())
      && usedMem == UsedBytes(bs) && maxMem >= usedMem
    }

    /** rt_system_heap_init on a range it does not turn down; the offsets count from the aligned begin_addr. */
    constructor (begin: nat, end: nat)
      requires end < SPAN && end - end % 4 > 2 * HEADER && end - end % 4 - 2 * HEADER >= AlignUp(begin)
      ensures Valid() && limit == end - end % 4 - AlignUp(begin) - 2 * HEADER
      ensures bs == [Block(0, limit + HEADER, false)] && lfree == 0 && usedMem == 0 && maxMem == 0
    {
      var size := end - end % 4 - AlignUp(begin) - 2 * HEADER;
      limit := size;
      used := map[0 := false, size + HEADER := true];
      next := map[0 := size + HEADER, size + HEADER := size + HEADER];
      prev := map[0 := 0, size + HEADER := size + HEADER];
      ram := seq(size + 2 * HEADER, i => 0);
      lfree := 0;
      usedMem, maxMem := 0, 0;
      bs := [Block(0, size + HEADER, false)];
      new;
      assert bs[1..] == [];
    }

    /** A new header overwrites twelve bytes. */
    method NewHeader(a: nat) returns (junk: seq<byte>)
      requires a + HEADER <= |ram|
      modifies this`ram, this`used
      ensures |junk| == HEADER && ram == Over(old(ram), a, junk)
      ensures used == old(used)[a := false]
    {
      junk := *;
      if |junk| != HEADER {
        junk := seq(HEADER, i => 0);
      }
      ram := Over(ram, a, junk);
      used := used[a := false];
    }

    /** plug_holes */
    method PlugHoles(mem: nat, ghost i: nat)
      requires Linked() && Tiled(bs, End()) && i < |bs| && bs[i].start == mem && !bs[i].used && PartedBut(bs, i)
      requires lfree == Lowest(bs, End())
      modifies this`next, this`prev, this`lfree, this`bs
      ensures bs == SmallSpec.PlugHoles(old(bs), i)
      ensures Linked() && SmallSpec.Valid(bs, End()) && lfree == Lowest(bs, End())
    {
      hide Held, Tiled, Join, Lowest;
      ghost var was := bs;
      PlugKeepsValid(bs, End(), i);
      LowestPlugged(bs, End(), i);
      JoinedFree(bs, i);
      Reads(used, next, prev, bs, End(), i);
      var nmem := next[mem];
      if mem != nmem && !used[nmem] && nmem != End() {
        if lfree == nmem {
          lfree := mem;
        }
        LowestFirst(bs, End(), i);
        HeldJoin(used, next, prev, bs, End(), i);
        Reads(used, next, prev, bs, End(), i + 1);
        next := next[mem := next[nmem]];
        prev := prev[next[mem] := mem];
        JoinTiled(bs, End(), i);
        bs := Join(bs, i);
        LowestJoined(was, End(), i);
      }
      assert bs == JoinRight(was, i);
      Reads(used, next, prev, bs, End(), i);
      var pmem := prev[mem];
      if pmem != mem && !used[pmem] {
        if lfree == mem {
          lfree := pmem;
        }
        LowestFirst(bs, End(), i - 1);
        HeldJoin(used, next, prev, bs, End(), i - 1);
        next := next[pmem := next[mem]];
        prev := prev[next[mem] := pmem];
        bs := Join(bs, i - 1);
      }
    }

    /** The end of rt_malloc: lfree moves on to the next free block or to heap_end. */
    method AdvanceLowest(ghost from: nat)
      requires Linked() && Tiled(bs, End()) && from < |bs| && lfree == bs[from].start
      requires forall j :: 0 <= j < from ==> bs[j].used
      modifies this`lfree
      ensures lfree == Lowest(bs, End())
    {
      hide Held, Tiled;
      ghost var k := from;
      Reads(used, next, prev, bs, End(), k);
      while used[lfree] && lfree != End()
        invariant k <= |bs| && forall j :: 0 <= j < k ==> bs[j].used
        invariant lfree == if k < |bs| then bs[k].start else End()
        invariant lfree in used && lfree in next
        invariant k < |bs| ==> used[lfree] == bs[k].used
        decreases |bs| - k
      {
        if k < |bs| { Reads(used, next, prev, bs, End(), k); }
        if k + 1 < |bs| { Reads(used, next, prev, bs, End(), k + 1); }
        lfree := next[lfree];
        k := k + 1;
      }
      EndFields(used, next, prev, bs, End());
      if k < |bs| { Reads(used, next, prev, bs, End(), k); }
      LowestIs(bs, End(), k);
    }

    /** The split of rt_malloc. */
    method SplitOff(mem: nat, size: nat, ghost i: nat)
      requires Linked() && Tiled(bs, End()) && i < |bs| && mem == bs[i].start && !bs[i].used
      requires bs[i].Room() >= size + HEADER + MIN_SIZE && size % 4 == 0
      modifies this`used, this`next, this`prev, this`ram, this`bs
      ensures bs == Split(old(bs), i, mem + HEADER + size) && Linked()
      ensures KeepsLive(old(bs), old(ram), ram, old(bs)[i])
    {
      hide Held, Tiled, Split, Over, KeepsLive;
      ghost var was, ram0, used0, next0, prev0 := bs, ram, used, next, prev;
      Reads(used, next, prev, bs, End(), i);
      BeforeEnd(bs, End(), i);
      var cut := mem + HEADER + size;
      ghost var junk := NewHeader(cut);
      next := next[cut := next[mem]];
      prev := prev[cut := mem];
      next := next[mem := cut];
      used := used[mem := true];
      if next[cut] != limit + HEADER {
        prev := prev[next[cut] := cut];
      }
      bs := Split(bs, i, cut);
      HeldSplit(used0, next0, prev0, was, End(), i, cut, prev);
      OverLive(was, End(), ram0, i, cut, junk);
    }

    /** The block the search has found is taken. */
    method Take(mem: nat, size: nat, ghost i: nat)
      requires Valid() && i < |bs| && mem == bs[i].start && HasRoom(bs, i, size) && size % 4 == 0
      modifies this
      ensures Valid() && bs == TakeAt(old(bs), i, size)
      ensures KeepsLive(old(bs), old(ram), ram, old(bs)[i])
      ensures maxMem == if old(maxMem) < usedMem then usedMem else old(maxMem)
    {
      hide Held, Tiled, Split, KeepsLive, Lowest, UsedBytes;
      ghost var was := bs;
      Reads(used, next, prev, bs, End(), i);
      TakeKeepsValid(bs, End(), i, size);
      TakeUses(bs, i, size);
      LowestTaken(bs, End(), i, size);
      LiveTake(bs, End(), i, size, bs[i]);
      if next[mem] - (mem + HEADER) >= size + HEADER + MIN_SIZE {
        SplitOff(mem, size, i);
        usedMem := usedMem + (size + HEADER);
        if maxMem < usedMem { maxMem := usedMem; }
      } else {
        HeldSet(used, next, prev, bs, End(), i, true);
        used := used[mem := true];
        bs := SetUsed(bs, i, true);
        usedMem := usedMem + (next[mem] - mem);
        if maxMem < usedMem { maxMem := usedMem; }
        SameKeeps(was, ram, was[i]);
      }
      if mem == lfree {
        AdvanceLowest(i);
      }
    }

    /** The search loop of rt_malloc: the first block from lfree on that its tests accept. */
    method Search(size: nat) returns (found: bool, ptr: nat, ghost k: nat)
      requires Valid() && size <= limit
      ensures k == FirstFit(bs, 0, size, limit) && (found <==> k < |bs|)
      ensures found ==> ptr == bs[k].start
    {
      hide Held, Tiled, UsedBytes, Lowest, NoNeighbours, Bound;
      ptr, k := lfree, LowestIndex(bs);
      LowestIs(bs, End(), k);
      SearchFromLowest(bs, k, size, limit);
      while ptr < Bound(limit, size)
        invariant k <= |bs| && ptr == if k < |bs| then bs[k].start else End()
        invariant FirstFit(bs, k, size, limit) == FirstFit(bs, 0, size, limit)
        decreases |bs| - k
      {
        Reads(used, next, prev, bs, End(), k);
        if !used[ptr] && next[ptr] - (ptr + HEADER) >= size {
          assert Takes(bs[k], size, limit);
          return true, ptr, k;
        }
        ptr := next[ptr];
        k := k + 1;
      }
      if k < |bs| { NoneBeyond(bs, End(), k, size, limit); }
      found, k := false, |bs|;
    }

    /** rt_malloc; the result is the offset of the payload. */
    method RtMalloc(size: nat) returns (r: Option<nat>)
      requires Valid() && !SpinsOn(size, limit)
      modifies this
      ensures Valid() && bs == Malloc(old(bs), size, limit)
      ensures r.None? <==> Refuses(old(bs), size, limit)
      ensures r.None? ==> ram == old(ram) && maxMem == old(maxMem)
      ensures r.Some? ==>
        var i := FirstFit(old(bs), 0, Wanted(size), limit);
        && r.value == old(bs)[i].start + HEADER
        && KeepsLive(old(bs), old(ram), ram, old(bs)[i])
        && maxMem == if old(maxMem) < usedMem then usedMem else old(maxMem)
    {
      hide Held, Tiled, TakeAt, KeepsLive, UsedBytes, Lowest, NoNeighbours, Bound;
      if size == 0 {
        return None;
      }
      var w := AlignUp(size);
      if w > limit {
        return None;
      }
      if w < MIN_SIZE {
        w := MIN_SIZE;
      }
      var found, ptr, k := Search(w);
      if !found {
        return None;
      }
      Take(ptr, w, k);
      r := Some(ptr + HEADER);
    }

    /** p is the payload of a live block, which is what the assertions in rt_free check. */
    ghost predicate Owned(p: nat)
      reads this
    {
      p >= HEADER && var i := IndexAt(bs, p - HEADER); i < |bs| && bs[i].used
    }

    /** rt_free */
    method RtFree(rmem: Option<nat>)
      requires Valid() && (rmem.Some? ==> Owned(rmem.value))
      modifies this`used, this`next, this`prev, this`lfree, this`usedMem, this`bs
      ensures Valid()
      ensures bs == if rmem.None? then old(bs) else FreeAt(old(bs), IndexAt(old(bs), rmem.value - HEADER))
    {
      hide Held, Tiled, SmallSpec.PlugHoles, Lowest, UsedBytes;
      if rmem.None? {
        return;
      }
      var mem := rmem.value - HEADER;
      ghost var i := IndexAt(bs, mem);
      Reads(used, next, prev, bs, End(), i);
      ShapeAt(bs, End(), i);
      FreeUses(bs, i);
      FreeParts(bs, i);
      SetTiled(bs, End(), i, false);
      LowestFreed(bs, End(), i);
      HeldSet(used, next, prev, bs, End(), i, false);
      used := used[mem := false];
      bs := SetUsed(bs, i, false);
      if mem < lfree {
        lfree := mem;
      }
      usedMem := usedMem - (next[mem] - mem);
      PlugHoles(mem, i);
    }

    /** The header that rt_realloc lays behind what a used block keeps. */
    method SplitUsed(mem: nat, cut: nat, ghost i: nat)
      requires Linked() && Tiled(bs, End()) && i < |bs| && mem == bs[i].start && bs[i].used
      requires mem + HEADER <= cut && cut + HEADER <= bs[i].end && cut % 4 == 0
      modifies this`used, this`next, this`prev, this`ram, this`bs
      ensures bs == Split(old(bs), i, cut) && Linked()
      ensures KeepsLive(old(bs), old(ram), ram, old(bs)[i])
      ensures SameBytes(old(ram), ram, mem + HEADER, cut)
    {
      hide Held, Tiled, Split, Over, KeepsLive, SameBytes;
      ghost var was, ram0, next0, prev0 := bs, ram, next, prev;
      ghost var used0: map<nat, bool> := used;
      Reads(used, next, prev, bs, End(), i);
      BeforeEnd(bs, End(), i);
      ghost var junk := NewHeader(cut);
      next := next[cut := next[mem]];
      prev := prev[cut := mem];
      next := next[mem := cut];
      if next[cut] != limit + HEADER {
        prev := prev[next[cut] := cut];
      }
      assert used == used0[cut := false][mem := true];
      bs := Split(bs, i, cut);
      HeldSplit(used0, next0, prev0, was, End(), i, cut, prev);
      OverLive(was, End(), ram0, i, cut, junk);
      OverKeeps(ram0, cut, junk, mem + HEADER, cut);
    }

    /** The shrinking branch of rt_realloc. */
    method CutInPlace(mem: nat, newsize: nat, ghost i: nat)
      requires Valid() && i < |bs| && bs[i].used && bs[i].start == mem && Cuts(bs[i], newsize) && newsize % 4 == 0
      modifies this`used, this`next, this`prev, this`lfree, this`usedMem, this`bs, this`ram
      ensures Valid() && bs == CutAt(old(bs), i, newsize)
      ensures KeepsLive(old(bs), old(ram), ram, old(bs)[i])
      ensures SameBytes(old(ram), ram, mem + HEADER, mem + HEADER + newsize)
    {
      hide Held, Tiled, SmallSpec.PlugHoles, Lowest, UsedBytes, Split, KeepsLive, SameBytes;
      Reads(used, next, prev, bs, End(), i);
      BeforeEnd(bs, End(), i);
      ShapeAt(bs, End(), i);
      CutUses(bs, i, newsize);
      var size := next[mem] - mem - HEADER;
      usedMem := usedMem - (size - newsize);
      var cut := mem + HEADER + newsize;
      CutParts(bs, i, cut);
      SplitTiled(bs, End(), i, cut);
      LowestCut(bs, End(), i, cut);
      SplitUsed(mem, cut, i);
      if cut < lfree {
        lfree := cut;
      }
      PlugHoles(cut, i + 1);
    }

    /** The copy of rt_realloc into the block that has just been taken. */
    method CopyOver(src: nat, dst: nat, n: nat, ghost was: seq<Block>, ghost ram0: seq<byte>, ghost i: nat, ghost c: nat, ghost size: nat)
      requires Tiled(was, End()) && Tiled(bs, End()) && i < |was| && was[i].used && c < |was| && HasRoom(was, c, size) && bs == TakeAt(was, c, size)
      requires KeepsLive(was, ram0, ram, was[c]) && |ram0| == |ram| && End() <= |ram|
      requires src == was[i].start + HEADER && dst == was[c].start + HEADER && n <= was[i].Room() && n <= size
      modifies this`ram
      ensures Copied(ram0, ram, src, dst, n) && KeepsLive(was, ram0, ram, was[i]) && |ram| == |ram0|
    {
      hide Tiled, TakeAt, Over, KeepsLive, Copied;
      LiveTake(was, End(), c, size, was[c]);
      BeforeEnd(was, End(), i);
      BeforeEnd(bs, End(), c);
      ghost var ram1 := ram;
      ram := Over(ram, dst, ram[src..src + n]);
      CopyKeeps(was, bs, End(), ram0, ram1, ram, i, c, src, dst, n, size);
    }

    /** Copying and freeing, after a block has been taken for block i of the heap was. */
    method FinishMove(rmem: nat, dst: nat, n: nat, ghost was: seq<Block>, ghost ram0: seq<byte>, ghost i: nat, ghost c: nat, ghost w: nat)
      requires Valid() && Tiled(was, End()) && i < |was| && was[i].used && c < |was| && HasRoom(was, c, w) && bs == TakeAt(was, c, w)
      requires KeepsLive(was, ram0, ram, was[c]) && |ram0| == |ram|
      requires rmem == was[i].start + HEADER && dst == was[c].start + HEADER && n <= was[i].Room() && n <= w
      modifies this`used, this`next, this`prev, this`lfree, this`usedMem, this`bs, this`ram
      ensures Valid()
      ensures var j := IndexAt(old(bs), rmem - HEADER); j < |old(bs)| && bs == FreeAt(old(bs), j)
      ensures Copied(ram0, ram, rmem, dst, n) && KeepsLive(was, ram0, ram, was[i])
    {
      hide Held, Tiled, Lowest, UsedBytes, KeepsLive, TakeAt, FreeAt, NoNeighbours, Copied;
      ghost var j := StillThere(was, bs, End(), i, c, w);
      CopyOver(rmem, dst, n, was, ram0, i, c, w);
      RtFree(Some(rmem));
    }

    /** The moving branch of rt_realloc. */
    method Move(rmem: nat, newsize: nat, ghost i: nat) returns (r: Option<nat>)
      requires Valid() && !SpinsOn(newsize, limit) && Owned(rmem) && i == IndexAt(bs, rmem - HEADER) && newsize % 4 == 0 && 0 < newsize <= limit
      modifies this
      ensures Valid()
      ensures r.None? <==> Refuses(old(bs), newsize, limit)
      ensures r.None? ==> bs == old(bs) && ram == old(ram)
      ensures r.Some? ==>
        && IndexAt(Malloc(old(bs), newsize, limit), rmem - HEADER) < |Malloc(old(bs), newsize, limit)|
        && bs == FreeAt(Malloc(old(bs), newsize, limit), IndexAt(Malloc(old(bs), newsize, limit), rmem - HEADER))
        && r.value == old(bs)[FirstFit(old(bs), 0, Wanted(newsize), limit)].start + HEADER
        && KeepsLive(old(bs), old(ram), ram, old(bs)[i])
        && Copied(old(ram), ram, rmem, r.value, Smaller(old(bs)[i].Room(), newsize))
    {
      hide Held, Tiled, Lowest, UsedBytes, KeepsLive, TakeAt, FreeAt, NoNeighbours, Copied, Malloc, Refuses, Wanted, Bound, AlignUp;
      ghost var was, ram0 := bs, ram;
      Reads(used, next, prev, bs, End(), i);
      ShapeAt(bs, End(), i);
      var mem := rmem - HEADER;
      var size := next[mem] - mem - HEADER;
      MallocTakes(bs, newsize, limit);
      r := RtMalloc(newsize);
      if r.Some? {
        FinishMove(rmem, r.value, if size < newsize then size else newsize, was, ram0, i, FirstFit(was, 0, Wanted(newsize), limit), Wanted(newsize));
      }
    }

    /** rt_realloc for a live block and a size that is aligned already and not 0; its range test is met by every live block. */
    method ReallocBlock(rmem: nat, w: nat, ghost i: nat) returns (r: Option<nat>)
      requires Valid() && !SpinsOn(w, limit) && Owned(rmem) && i == IndexAt(bs, rmem - HEADER) && w % 4 == 0 && 0 < w <= limit
      modifies this
      ensures Valid()
      ensures var b := old(bs)[i];
        && (b.Room() == w ==> r == Some(rmem) && bs == old(bs) && ram == old(ram))
        && (RoomWithin(b, w) ==> r == Some(rmem) && bs == CutAt(old(bs), i, w))
        && (r.None? <==> Stuck(old(bs), i, w, limit))
        && (b.Room() != w && !RoomWithin(b, w) && r.Some? ==>
          var moved := Malloc(old(bs), w, limit); var j := IndexAt(moved, b.start);
          && j < |moved| && bs == FreeAt(moved, j)
          && r.value == old(bs)[FirstFit(old(bs), 0, Wanted(w), limit)].start + HEADER)
        && (r.None? ==> bs == old(bs) && ram == old(ram))
        && (r.Some? ==> Copied(old(ram), ram, rmem, r.value, Smaller(b.Room(), w)) && KeepsLive(old(bs), old(ram), ram, b))
    {
      hide Held, Tiled, Lowest, UsedBytes, Over, KeepsLive, FreeAt, CutAt, Malloc, Refuses, NoNeighbours;
      var mem := rmem - HEADER;
      Reads(used, next, prev, bs, End(), i);
      ShapeAt(bs, End(), i);
      BeforeEnd(bs, End(), i);
      CutsWhere(bs[i], w);
      var size := next[mem] - mem - HEADER;
      if size == w {
        SameKeeps(bs, ram, bs[i]);
        return Some(rmem);
      }
      if w + HEADER + MIN_SIZE < size {
        CutInPlace(mem, w, i);
        return Some(rmem);
      }
      r := Move(rmem, w, i);
    }

    /** rt_realloc */
    method RtRealloc(rmem: Option<nat>, newsize: nat) returns (r: Option<nat>)
      requires Valid() && !SpinsOn(AlignUp(newsize), limit) && (rmem.Some? ==> Owned(rmem.value))
      modifies this
      ensures Valid()
      ensures AlignUp(newsize) > limit ==> r.None? && bs == old(bs) && ram == old(ram)
      ensures AlignUp(newsize) == 0 ==>
        r.None? && ram == old(ram) && bs == if rmem.None? then old(bs) else FreeAt(old(bs), IndexAt(old(bs), rmem.value - HEADER))
      ensures r.None? && rmem.Some? ==> bs == NullOutcome(old(bs), IndexAt(old(bs), rmem.value - HEADER), newsize)
      ensures 0 < AlignUp(newsize) <= limit && rmem.None? ==>
        var w := AlignUp(newsize); var c := FirstFit(old(bs), 0, Wanted(w), limit);
        && (r.None? <==> Refuses(old(bs), w, limit)) && bs == Malloc(old(bs), w, limit)
        && (r.None? ==> ram == old(ram))
        && (r.Some? ==> r.value == old(bs)[c].start + HEADER && KeepsLive(old(bs), old(ram), ram, old(bs)[c]))
      ensures 0 < AlignUp(newsize) <= limit && rmem.Some? ==>
        var i := IndexAt(old(bs), rmem.value - HEADER); var b := old(bs)[i]; var w := AlignUp(newsize);
        && (b.Room() == w ==> r == rmem && bs == old(bs) && ram == old(ram))
        && (RoomWithin(b, w) ==> r == rmem && bs == CutAt(old(bs), i, w))
        && (r.None? <==> Stuck(old(bs), i, w, limit))
        && (b.Room() != w && !RoomWithin(b, w) && r.Some? ==>
          var moved := Malloc(old(bs), w, limit); var j := IndexAt(moved, b.start);
          && j < |moved| && bs == FreeAt(moved, j)
          && r.value == old(bs)[FirstFit(old(bs), 0, Wanted(w), limit)].start + HEADER)
        && (r.None? ==> bs == old(bs) && ram == old(ram))
        && (r.Some? ==> Copied(old(ram), ram, rmem.value, r.value, Smaller(b.Room(), w)) && KeepsLive(old(bs), old(ram), ram, b))
    {
      hide Held, Tiled, Lowest, UsedBytes, Over, KeepsLive, FreeAt, CutAt, Malloc, Refuses, NoNeighbours, Copied, Cuts, Stuck, RoomWithin;
      var w := AlignUp(newsize);
      if w > limit {
        return None;
      } else if w == 0 {
        RtFree(rmem);
        return None;
      }
      if rmem.None? {
        r := RtMalloc(w);
        return;
      }
      r := ReallocBlock(rmem.value, w, IndexAt(bs, rmem.value - HEADER));
    }
  }

  function Smaller(a: int, b: int): int {
    if a < b then a else b
  }

  /** The first n payload bytes have arrived. */
  predicate Copied(ram: seq<byte>, ram': seq<byte>, src: nat, dst: nat, n: int) {
    0 <= n && src + n <= |ram| && dst + n <= |ram'| && ram'[dst..dst + n] == ram[src..src + n]
  }

  lemma MallocTakes(bs: seq<Block>, size: nat, limit: nat)
    ensures Refuses(bs, size, limit) ==> Malloc(bs, size, limit) == bs
    ensures var c, w := FirstFit(bs, 0, Wanted(size), limit), Wanted(size);
      !Refuses(bs, size, limit) ==> c < |bs| && HasRoom(bs, c, w) && Malloc(bs, size, limit) == TakeAt(bs, c, w) && (size <= SPAN - WORD ==> w >= size)
  {
  }

  lemma IndexOfStart(bs: seq<Block>, end: nat, i: nat)
    requires Tiled(bs, end) && i < |bs|
    ensures IndexAt(bs, bs[i].start) == i
  {
    var k := IndexAt(bs, bs[i].start);
    if k < i { StartsApart(bs, end, i, k); }
  }

  /** A live block is still in its place after an allocation. */
  lemma StillThere(bs: seq<Block>, bs': seq<Block>, end: nat, i: nat, c: nat, size: nat) returns (j: nat)
    requires Tiled(bs, end) && Tiled(bs', end) && i < |bs| && bs[i].used && c < |bs| && HasRoom(bs, c, size) && bs' == TakeAt(bs, c, size)
    ensures j < |bs'| && bs'[j] == bs[i] && IndexAt(bs', bs[i].start) == j
    ensures c < |bs'| && bs'[c].start == bs[c].start && bs'[c].used && bs'[c].Room() >= size && j != c
  {
    LiveTake(bs, end, c, size, bs[i]);
    assert Live(bs, bs[i]);
    j :| 0 <= j < |bs'| && bs'[j] == bs[i];
    IndexOfStart(bs', end, j);
    if j == c { StartsApart(bs, end, i, c); }
  }

  lemma PartSame(ram: seq<byte>, ram': seq<byte>, a: nat, z: nat, m: nat)
    requires SameBytes(ram, ram', a, z) && a <= m <= z <= |ram|
    ensures ram[a..m] == ram'[a..m]
  {
    SliceFront(ram, a, z, m);
    SliceFront(ram', a, z, m);
  }

  lemma OverReads(ram: seq<byte>, a: nat, bytes: seq<byte>)
    requires a + |bytes| <= |ram|
    ensures Over(ram, a, bytes)[a..a + |bytes|] == bytes
  {
  }

  /** The copy lands in the new block and spoils nobody's payload. */
  lemma CopyKeeps(bs: seq<Block>, bs': seq<Block>, end: nat, ram0: seq<byte>, ram1: seq<byte>, ram2: seq<byte>,
                  i: nat, c: nat, src: nat, dst: nat, n: int, size: nat)
    requires Tiled(bs, end) && Tiled(bs', end) && i < |bs| && bs[i].used && c < |bs| && HasRoom(bs, c, size) && bs' == TakeAt(bs, c, size)
    requires KeepsLive(bs, ram0, ram1, bs[c]) && |ram0| == |ram1| && end <= |ram0|
    requires src == bs[i].start + HEADER && dst == bs[c].start + HEADER && 0 <= n <= bs[i].Room() && n <= size
    requires src + n <= |ram1| && dst + n <= |ram1| && ram2 == Over(ram1, dst, ram1[src..src + n])
    ensures Copied(ram0, ram2, src, dst, n) && KeepsLive(bs, ram0, ram2, bs[i])
  {
    hide Tiled, TakeAt, Over;
    LiveTake(bs, end, c, size, bs[i]);
    assert Live(bs, bs[i]);
    BeforeEnd(bs, end, i);
    BeforeEnd(bs', end, c);
    PartSame(ram0, ram1, src, bs[i].end, src + n);
    OverReads(ram1, dst, ram1[src..src + n]);
    forall b | Live(bs, b) && b != bs[i]
      ensures SameBytes(ram0, ram2, b.start + HEADER, b.end)
    {
      LiveTake(bs, end, c, size, b);
      assert b != bs[c];
      OverKeeps(ram1, dst, ram1[src..src + n], b.start + HEADER, b.end);
    }
  }

  lemma EndFields(used: map<nat, bool>, next: map<nat, nat>, prev: map<nat, nat>, bs: seq<Block>, end: nat)
    requires Held(used, next, prev, bs, end) && Tiled(bs, end)
    ensures end in used && used[end] && forall i :: 0 <= i < |bs| ==> bs[i].start != end
  {
    forall i | 0 <= i < |bs|
      ensures bs[i].start != end
    {
      BeforeEnd(bs, end, i);
    }
  }

  lemma SameKeeps(bs: seq<Block>, ram: seq<byte>, x: Block)
    ensures KeepsLive(bs, ram, ram, x)
  {
  }

  /** What the fields of block i and of its neighbours say. */
  lemma Reads(used: map<nat, bool>, next: map<nat, nat>, prev: map<nat, nat>, bs: seq<Block>, end: nat, i: nat)
    requires Held(used, next, prev, bs, end) && Tiled(bs, end) && i < |bs|
    ensures var a := bs[i].start;
      && a in used && used[a] == bs[i].used && a in next && next[a] == bs[i].end && a != bs[i].end && a < end
      && a in prev && (if i == 0 then prev[a] == a else prev[a] == bs[i - 1].start != a && bs[i - 1].start in used && used[bs[i - 1].start] == bs[i - 1].used)
      && next[a] in used && next[a] in next
      && (i + 1 < |bs| ==> next[a] == bs[i + 1].start != end && used[next[a]] == bs[i + 1].used)
      && (i + 1 == |bs| ==> next[a] == end && used[next[a]])
  {
    assert HeldAt(used, next, prev, bs, i);
    ShapeAt(bs, end, i);
    BeforeEnd(bs, end, i);
    if i + 1 < |bs| {
      assert HeldAt(used, next, prev, bs, i + 1);
      StartsApart(bs, end, i, i + 1);
    }
    if i > 0 {
      assert HeldAt(used, next, prev, bs, i - 1);
      StartsApart(bs, end, i, i - 1);
    }
  }

  /** No free block lies below the lowest. */
  lemma LowestFirst(bs: seq<Block>, end: nat, i: nat)
    requires Tiled(bs, end) && i < |bs| && !bs[i].used
    ensures Lowest(bs, end) <= bs[i].start
    ensures i + 1 < |bs| ==> bs[i].start < bs[i + 1].start
  {
    var k := LowestIndex(bs);
    LowestIs(bs, end, k);
    if k < i { Apart(bs, end, k, i); ShapeAt(bs, end, k); }
    ShapeAt(bs, end, i);
    if i + 1 < |bs| { Apart(bs, end, i, i + 1); }
  }
}
