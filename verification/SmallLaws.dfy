// What the small-memory allocator keeps, and what its search amounts to.
module SmallLaws {
  import opened SmallSpec

  // ---- shapes

  /** The blocks before i, some blocks in place of block i, and the rest. */
  lemma Positions(bs: seq<Block>, lo: nat, hi: nat, mid: seq<Block>)
    requires lo <= hi <= |bs|
    ensures var r := bs[..lo] + mid + bs[hi..];
      && |r| == |bs| - (hi - lo) + |mid|
      && (forall j :: 0 <= j < lo ==> r[j] == bs[j])
      && (forall j :: 0 <= j < |mid| ==> r[lo + j] == mid[j])
      && (forall j :: lo + |mid| <= j < |r| ==> r[j] == bs[j - |mid| + (hi - lo)])
  {
  }

  lemma SplitTiled(bs: seq<Block>, end: nat, i: nat, cut: nat)
    requires Tiled(bs, end) && i < |bs| && cut % 4 == 0
    requires bs[i].start + HEADER <= cut && cut + HEADER <= bs[i].end
    ensures Tiled(Split(bs, i, cut), end)
    ensures var r := Split(bs, i, cut);
      |r| == |bs| + 1 && r[i] == Block(bs[i].start, cut, true) && r[i + 1] == Block(cut, bs[i].end, false)
      && (forall j :: 0 <= j < i ==> r[j] == bs[j]) && (forall j :: i + 2 <= j < |r| ==> r[j] == bs[j - 1])
  {
    var mid := [Block(bs[i].start, cut, true), Block(cut, bs[i].end, false)];
    Positions(bs, i, i + 1, mid);
    var r := Split(bs, i, cut);
    assert r[i] == mid[0] && r[i + 1] == mid[1];
    forall j | 0 <= j && j + 1 < |r|
      ensures Meets(r, j)
    {
      if j < i { assert Meets(bs, j); }
      if j > i { assert j == i + 1 || Meets(bs, j - 1); assert j == i + 1 ==> Meets(bs, i); }
    }
  }

  lemma JoinTiled(bs: seq<Block>, end: nat, i: nat)
    requires Tiled(bs, end) && i + 1 < |bs|
    ensures Tiled(Join(bs, i), end)
    ensures var r := Join(bs, i);
      |r| == |bs| - 1 && r[i] == Block(bs[i].start, bs[i + 1].end, bs[i].used)
      && (forall j :: 0 <= j < i ==> r[j] == bs[j]) && (forall j :: i < j < |r| ==> r[j] == bs[j + 1])
  {
    var mid := [Block(bs[i].start, bs[i + 1].end, bs[i].used)];
    Positions(bs, i, i + 2, mid);
    var r := Join(bs, i);
    assert r[i] == mid[0];
    assert Meets(bs, i);
    forall j | 0 <= j && j + 1 < |r|
      ensures Meets(r, j)
    {
      if j < i { assert Meets(bs, j); }
      if j >= i { assert Meets(bs, j + 1); }
    }
  }

  /** No two free neighbours, pairs with block i aside. */
  ghost predicate PartedBut(bs: seq<Block>, i: nat) {
    forall j {:trigger Parted(bs, j)} :: 0 <= j && j + 1 < |bs| && j != i && j + 1 != i ==> Parted(bs, j)
  }

  lemma RightPlugged(bs: seq<Block>, end: nat, i: nat)
    requires Tiled(bs, end) && i < |bs| && !bs[i].used && PartedBut(bs, i)
    ensures var r := JoinRight(bs, i);
      && Tiled(r, end) && i < |r| && !r[i].used && r[i].start == bs[i].start && PartedBut(r, i)
      && (i + 1 < |r| ==> r[i + 1].used) && forall j :: 0 <= j < i ==> r[j] == bs[j]
  {
    if i + 1 < |bs| && !bs[i + 1].used {
      hide Tiled;
      JoinTiled(bs, end, i);
      var r := Join(bs, i);
      assert i + 2 < |bs| ==> Parted(bs, i + 1);
      forall j | 0 <= j && j + 1 < |r| && j != i && j + 1 != i
        ensures Parted(r, j)
      {
        if j < i { assert Parted(bs, j); }
        if j > i { assert Parted(bs, j + 1); }
      }
    }
  }

  lemma LeftPlugged(bs: seq<Block>, end: nat, i: nat)
    requires Tiled(bs, end) && i < |bs| && !bs[i].used && PartedBut(bs, i)
    requires i + 1 < |bs| ==> bs[i + 1].used
    ensures Valid(JoinLeft(bs, i), end)
  {
    if i > 0 && !bs[i - 1].used {
      hide Tiled;
      JoinTiled(bs, end, i - 1);
      var r := Join(bs, i - 1);
      assert i > 1 ==> Parted(bs, i - 2);
      forall j | 0 <= j && j + 1 < |r|
        ensures Parted(r, j)
      {
        if j < i - 2 { assert Parted(bs, j); }
        if j >= i { assert Parted(bs, j + 1); }
      }
    } else {
      forall j | 0 <= j && j + 1 < |bs|
        ensures Parted(bs, j)
      {
      }
    }
  }

  /** plug_holes restores the shape around one free block. */
  lemma PlugKeepsValid(bs: seq<Block>, end: nat, i: nat)
    requires Tiled(bs, end) && i < |bs| && !bs[i].used && PartedBut(bs, i)
    ensures Valid(PlugHoles(bs, i), end)
  {
    hide Tiled, Valid, PartedBut, JoinLeft;
    RightPlugged(bs, end, i);
    LeftPlugged(JoinRight(bs, i), end, i);
  }

  // ---- each request keeps the blocks valid

  lemma SetTiled(bs: seq<Block>, end: nat, i: nat, used: bool)
    requires Tiled(bs, end) && i < |bs|
    ensures Tiled(SetUsed(bs, i, used), end)
  {
    var r := SetUsed(bs, i, used);
    forall j | 0 <= j && j + 1 < |r|
      ensures Meets(r, j)
    {
      assert Meets(bs, j);
    }
  }

  lemma SplitParted(bs: seq<Block>, end: nat, i: nat, cut: nat)
    requires Valid(bs, end) && i < |bs| && !bs[i].used && cut % 4 == 0
    requires bs[i].start + HEADER <= cut && cut + HEADER <= bs[i].end
    ensures Valid(Split(bs, i, cut), end)
  {
    hide Tiled;
    SplitTiled(bs, end, i, cut);
    var r := Split(bs, i, cut);
    assert i + 1 < |bs| ==> Parted(bs, i);
    forall j | 0 <= j && j + 1 < |r|
      ensures Parted(r, j)
    {
      if j + 1 < i { assert Parted(bs, j); }
      if j > i + 1 { assert Parted(bs, j - 1); }
    }
  }

  lemma TakeKeepsValid(bs: seq<Block>, end: nat, i: nat, size: nat)
    requires Valid(bs, end) && i < |bs| && !bs[i].used && bs[i].Room() >= size && size % 4 == 0
    ensures Valid(TakeAt(bs, i, size), end)
  {
    hide Split;
    assert Shaped(bs[i]);
    if bs[i].Room() >= size + HEADER + MIN_SIZE {
      SplitParted(bs, end, i, bs[i].start + HEADER + size);
    } else {
      SetTiled(bs, end, i, true);
      forall j | 0 <= j && j + 1 < |bs|
        ensures Parted(SetUsed(bs, i, true), j)
      {
        assert Parted(bs, j);
      }
    }
  }

  lemma FreeParts(bs: seq<Block>, i: nat)
    requires NoNeighbours(bs) && i < |bs|
    ensures PartedBut(SetUsed(bs, i, false), i)
  {
    var r := SetUsed(bs, i, false);
    forall j | 0 <= j && j + 1 < |r| && j != i && j + 1 != i
      ensures Parted(r, j)
    {
      assert Parted(bs, j);
    }
  }

  lemma FreeKeepsValid(bs: seq<Block>, end: nat, i: nat)
    requires Valid(bs, end) && i < |bs| && bs[i].used
    ensures Valid(FreeAt(bs, i), end)
  {
    hide PlugHoles;
    SetTiled(bs, end, i, false);
    FreeParts(bs, i);
    PlugKeepsValid(SetUsed(bs, i, false), end, i);
  }

  lemma CutParts(bs: seq<Block>, i: nat, cut: nat)
    requires NoNeighbours(bs) && i < |bs|
    ensures var r := Split(bs, i, cut);
      i + 1 < |r| && r[i + 1] == Block(cut, bs[i].end, false) && PartedBut(r, i + 1)
  {
    var mid := [Block(bs[i].start, cut, true), Block(cut, bs[i].end, false)];
    Positions(bs, i, i + 1, mid);
    var r := Split(bs, i, cut);
    assert r[i] == mid[0] && r[i + 1] == mid[1];
    forall j | 0 <= j && j + 1 < |r| && j != i + 1 && j + 1 != i + 1
      ensures Parted(r, j)
    {
      if j < i { assert Parted(bs, j); }
      if j > i { assert Parted(bs, j - 1); }
    }
  }

  lemma CutKeepsValid(bs: seq<Block>, end: nat, i: nat, newsize: nat)
    requires Valid(bs, end) && i < |bs| && bs[i].used && Cuts(bs[i], newsize) && newsize % 4 == 0
    ensures Valid(CutAt(bs, i, newsize), end)
  {
    hide PlugHoles;
    var cut := bs[i].start + HEADER + newsize;
    assert Shaped(bs[i]);
    SplitTiled(bs, end, i, cut);
    CutParts(bs, i, cut);
    PlugKeepsValid(Split(bs, i, cut), end, i + 1);
  }

  // ---- bytes in use

  lemma {:induction false} UsedConcat(xs: seq<Block>, ys: seq<Block>)
    ensures UsedBytes(xs + ys) == UsedBytes(xs) + UsedBytes(ys)
  {
    if xs == [] {
      assert xs + ys == ys;
    } else {
      assert (xs + ys)[1..] == xs[1..] + ys;
      UsedConcat(xs[1..], ys);
    }
  }

  /** Replacing a stretch of blocks changes the sum by that stretch only. */
  lemma UsedReplaced(bs: seq<Block>, lo: nat, hi: nat, mid: seq<Block>)
    requires lo <= hi <= |bs|
    ensures UsedBytes(bs[..lo] + mid + bs[hi..]) == UsedBytes(bs) - UsedBytes(bs[lo..hi]) + UsedBytes(mid)
  {
    assert bs == bs[..lo] + (bs[lo..hi] + bs[hi..]);
    assert bs[..lo] + mid + bs[hi..] == bs[..lo] + (mid + bs[hi..]);
    UsedConcat(bs[lo..hi], bs[hi..]);
    UsedConcat(bs[..lo], bs[lo..hi] + bs[hi..]);
    UsedConcat(mid, bs[hi..]);
    UsedConcat(bs[..lo], mid + bs[hi..]);
  }

  lemma UsedOne(b: Block)
    ensures UsedBytes([b]) == Share(b)
  {
    assert [b][1..] == [];
  }

  lemma UsedTwo(b: Block, c: Block)
    ensures UsedBytes([b, c]) == Share(b) + Share(c)
  {
    assert [b, c][1..] == [c];
    UsedOne(c);
  }

  lemma UsedSet(bs: seq<Block>, i: nat, used: bool)
    requires i < |bs|
    ensures UsedBytes(SetUsed(bs, i, used)) == UsedBytes(bs) - Share(bs[i]) + Share(bs[i].(used := used))
  {
    hide Share, UsedBytes;
    var b := bs[i].(used := used);
    UsedReplaced(bs, i, i + 1, [b]);
    UsedOne(b);
    UsedOne(bs[i]);
    assert bs[i..i + 1] == [bs[i]];
    assert SetUsed(bs, i, used) == bs[..i] + [b] + bs[i + 1..];
  }

  lemma UsedSplit(bs: seq<Block>, i: nat, cut: nat)
    requires i < |bs|
    ensures UsedBytes(Split(bs, i, cut)) == UsedBytes(bs) - Share(bs[i]) + (cut - bs[i].start)
  {
    hide UsedBytes;
    var b, c := Block(bs[i].start, cut, true), Block(cut, bs[i].end, false);
    UsedReplaced(bs, i, i + 1, [b, c]);
    UsedTwo(b, c);
    UsedOne(bs[i]);
    assert bs[i..i + 1] == [bs[i]];
  }

  lemma UsedJoin(bs: seq<Block>, i: nat)
    requires i + 1 < |bs| && !bs[i].used && !bs[i + 1].used
    ensures UsedBytes(Join(bs, i)) == UsedBytes(bs)
  {
    var b := Block(bs[i].start, bs[i + 1].end, false);
    UsedReplaced(bs, i, i + 2, [b]);
    UsedOne(b);
    UsedTwo(bs[i], bs[i + 1]);
    assert bs[i..i + 2] == [bs[i], bs[i + 1]];
  }

  lemma JoinedFree(bs: seq<Block>, i: nat)
    requires i < |bs| && !bs[i].used
    ensures i < |JoinRight(bs, i)| && !JoinRight(bs, i)[i].used
  {
    if i + 1 < |bs| && !bs[i + 1].used {
      Positions(bs, i, i + 2, [Block(bs[i].start, bs[i + 1].end, bs[i].used)]);
      assert JoinRight(bs, i)[i] == Block(bs[i].start, bs[i + 1].end, false);
    }
  }

  lemma UsedPlugged(bs: seq<Block>, i: nat)
    requires i < |bs| && !bs[i].used
    ensures UsedBytes(PlugHoles(bs, i)) == UsedBytes(bs)
  {
    hide UsedBytes, Join;
    var r := JoinRight(bs, i);
    JoinedFree(bs, i);
    if i + 1 < |bs| && !bs[i + 1].used { UsedJoin(bs, i); }
    if i > 0 && !r[i - 1].used { UsedJoin(r, i - 1); }
  }

  /** What rt_malloc adds to used_mem: the cut size, or the whole block. */
  lemma TakeUses(bs: seq<Block>, i: nat, size: nat)
    requires i < |bs| && !bs[i].used && bs[i].Room() >= size
    ensures UsedBytes(TakeAt(bs, i, size)) == UsedBytes(bs) +
      if bs[i].Room() >= size + HEADER + MIN_SIZE then size + HEADER else bs[i].end - bs[i].start
  {
    hide UsedBytes, Split;
    if bs[i].Room() >= size + HEADER + MIN_SIZE {
      UsedSplit(bs, i, bs[i].start + HEADER + size);
    } else {
      UsedSet(bs, i, true);
    }
  }

  lemma FreeUses(bs: seq<Block>, i: nat)
    requires i < |bs| && bs[i].used
    ensures UsedBytes(FreeAt(bs, i)) == UsedBytes(bs) - (bs[i].end - bs[i].start)
  {
    hide UsedBytes, PlugHoles;
    UsedSet(bs, i, false);
    UsedPlugged(SetUsed(bs, i, false), i);
  }

  lemma CutUses(bs: seq<Block>, i: nat, newsize: nat)
    requires i < |bs| && bs[i].used
    ensures i + 1 < |Split(bs, i, bs[i].start + HEADER + newsize)|
    ensures UsedBytes(CutAt(bs, i, newsize)) == UsedBytes(bs) - (bs[i].Room() - newsize)
  {
    hide UsedBytes, PlugHoles;
    var cut := bs[i].start + HEADER + newsize;
    var mid := [Block(bs[i].start, cut, true), Block(cut, bs[i].end, false)];
    UsedSplit(bs, i, cut);
    Positions(bs, i, i + 1, mid);
    assert Split(bs, i, cut)[i + 1] == mid[1];
    UsedPlugged(Split(bs, i, cut), i + 1);
  }

  // ---- the lowest free block

  lemma {:induction false} LowestIs(bs: seq<Block>, end: nat, k: nat)
    requires k <= |bs| && (forall j :: 0 <= j < k ==> bs[j].used) && (k < |bs| ==> !bs[k].used)
    ensures Lowest(bs, end) == if k < |bs| then bs[k].start else end
  {
    if k > 0 {
      LowestIs(bs[1..], end, k - 1);
    }
  }

  /** The index of the lowest free block. */
  function LowestIndex(bs: seq<Block>): (k: nat)
    ensures k <= |bs| && (forall j :: 0 <= j < k ==> bs[j].used) && (k < |bs| ==> !bs[k].used)
  {
    if bs == [] || !bs[0].used then 0 else 1 + LowestIndex(bs[1..])
  }

  lemma {:induction false} Apart(bs: seq<Block>, end: nat, i: nat, j: nat)
    requires Tiled(bs, end) && i < j < |bs|
    ensures bs[i].end <= bs[j].start
    decreases j - i
  {
    assert Meets(bs, j - 1);
    if i < j - 1 {
      Apart(bs, end, i, j - 1);
      assert Shaped(bs[j - 1]);
    }
  }

  lemma BeforeEnd(bs: seq<Block>, end: nat, i: nat)
    requires Tiled(bs, end) && i < |bs|
    ensures bs[i].start + HEADER <= bs[i].end <= end
  {
    assert Shaped(bs[i]) && Shaped(bs[|bs| - 1]);
    if i < |bs| - 1 { Apart(bs, end, i, |bs| - 1); }
  }

  /** A block that becomes free is the lowest if it lies below the one that was. */
  lemma LowestFreed(bs: seq<Block>, end: nat, i: nat)
    requires Tiled(bs, end) && i < |bs| && bs[i].used
    ensures Lowest(SetUsed(bs, i, false), end) == if bs[i].start < Lowest(bs, end) then bs[i].start else Lowest(bs, end)
  {
    var k := LowestIndex(bs);
    var r := SetUsed(bs, i, false);
    LowestIs(bs, end, k);
    LowestIs(r, end, if i < k then i else k);
    if i < k && k < |bs| { Apart(bs, end, i, k); }
    if k < i { Apart(bs, end, k, i); }
    BeforeEnd(bs, end, i);
    if k < |bs| { assert Shaped(bs[k]); }
  }

  lemma LowestCut(bs: seq<Block>, end: nat, i: nat, cut: nat)
    requires Tiled(bs, end) && i < |bs| && bs[i].used && bs[i].start + HEADER <= cut && cut + HEADER <= bs[i].end
    ensures Lowest(Split(bs, i, cut), end) == if cut < Lowest(bs, end) then cut else Lowest(bs, end)
  {
    var k := LowestIndex(bs);
    var r := Split(bs, i, cut);
    Positions(bs, i, i + 1, [Block(bs[i].start, cut, true), Block(cut, bs[i].end, false)]);
    assert r[i].used && r[i + 1] == Block(cut, bs[i].end, false);
    LowestIs(bs, end, k);
    LowestIs(r, end, if i < k then i + 1 else k);
    if i < k && k < |bs| { Apart(bs, end, i, k); }
    if k < i { Apart(bs, end, k, i); assert Shaped(bs[k]); }
    BeforeEnd(bs, end, i);
  }

  lemma LowestJoined(bs: seq<Block>, end: nat, i: nat)
    requires i + 1 < |bs| && !bs[i].used && !bs[i + 1].used
    ensures Lowest(Join(bs, i), end) == Lowest(bs, end)
  {
    var k := LowestIndex(bs);
    Positions(bs, i, i + 2, [Block(bs[i].start, bs[i + 1].end, bs[i].used)]);
    assert !Join(bs, i)[i].used;
    LowestIs(bs, end, k);
    LowestIs(Join(bs, i), end, k);
  }

  lemma LowestPlugged(bs: seq<Block>, end: nat, i: nat)
    requires i < |bs| && !bs[i].used
    ensures Lowest(PlugHoles(bs, i), end) == Lowest(bs, end)
  {
    var r := JoinRight(bs, i);
    if i + 1 < |bs| && !bs[i + 1].used {
      LowestJoined(bs, end, i);
      Positions(bs, i, i + 2, [Block(bs[i].start, bs[i + 1].end, bs[i].used)]);
      assert r[i] == Block(bs[i].start, bs[i + 1].end, bs[i].used);
    }
    if i > 0 && !r[i - 1].used { LowestJoined(r, end, i - 1); }
  }

  /** Taking a block other than the lowest leaves the lowest alone; taking the lowest, the next free block is. */
  lemma LowestTaken(bs: seq<Block>, end: nat, i: nat, size: nat)
    requires Tiled(bs, end) && i < |bs| && !bs[i].used && bs[i].Room() >= size
    ensures bs[i].start != Lowest(bs, end) ==> Lowest(TakeAt(bs, i, size), end) == Lowest(bs, end)
    ensures bs[i].start == Lowest(bs, end) ==> LowestIndex(bs) == i
    ensures forall j :: 0 <= j < i && i == LowestIndex(bs) ==> TakeAt(bs, i, size)[j].used
  {
    var k := LowestIndex(bs);
    LowestIs(bs, end, k);
    var r := TakeAt(bs, i, size);
    if bs[i].Room() >= size + HEADER + MIN_SIZE {
      Positions(bs, i, i + 1, [Block(bs[i].start, bs[i].start + HEADER + size, true), Block(bs[i].start + HEADER + size, bs[i].end, false)]);
    }
    if k < i {
      Apart(bs, end, k, i);
      assert Shaped(bs[k]);
      LowestIs(r, end, k);
    }
  }
}
