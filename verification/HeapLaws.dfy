// Laws of the partition operations in HeapSpec.
module HeapLaws {
  import opened Seqs
  import opened HeapSpec

  /** The elements of a splice, by position. */
  lemma SpliceIndex(bs: seq<Block>, lo: nat, hi: nat, mid: seq<Block>)
    requires lo <= hi <= |bs|
    ensures var r := Splice(bs, lo, hi, mid);
      && |r| == |bs| - (hi - lo) + |mid|
      && (forall k :: 0 <= k < lo ==> r[k] == bs[k])
      && (forall k :: lo <= k < lo + |mid| ==> r[k] == mid[k - lo])
      && (forall k :: lo + |mid| <= k < |r| ==> r[k] == bs[k - |mid| + (hi - lo)])
  {
  }

  /** mid covers exactly the bytes of bs[lo..hi]. */
  ghost predicate Covers(bs: seq<Block>, lo: nat, hi: nat, mid: seq<Block>)
    requires lo < hi <= |bs|
  {
    && |mid| > 0
    && mid[0].addr == bs[lo].addr
    && mid[|mid| - 1].End() == bs[hi - 1].End()
    && (forall k :: 0 <= k < |mid| ==> mid[k].size >= 0)
    && (forall k :: 0 <= k < |mid| - 1 ==> mid[k].End() == mid[k + 1].addr)
  }

  lemma SpliceTiled(bs: seq<Block>, start: int, end: int, lo: nat, hi: nat, mid: seq<Block>)
    requires Tiled(bs, start, end) && lo < hi < |bs| && Covers(bs, lo, hi, mid)
    ensures Tiled(Splice(bs, lo, hi, mid), start, end)
  {
    var r := Splice(bs, lo, hi, mid);
    SpliceIndex(bs, lo, hi, mid);
    forall k | 0 <= k < |r| - 1
      ensures r[k].End() == r[k + 1].addr
    {
      if k + 1 < lo {
      } else if k + 1 == lo {
        assert bs[k].End() == bs[k + 1].addr;
      } else if k + 1 == lo + |mid| {
        assert bs[hi - 1].End() == bs[hi].addr;
      } else if k >= lo + |mid| {
        var j := k - |mid| + (hi - lo);
        assert bs[j].End() == bs[j + 1].addr;
      }
    }
  }

  ghost predicate MergedAround(bs: seq<Block>, lo: nat, hi: nat, mid: seq<Block>)
    requires lo <= hi < |bs|
  {
    && |mid| > 0 && Merged(mid)
    && (lo > 0 ==> bs[lo - 1].used || mid[0].used)
    && (mid[|mid| - 1].used || bs[hi].used)
  }

  lemma SpliceMerged(bs: seq<Block>, lo: nat, hi: nat, mid: seq<Block>)
    requires Merged(bs) && lo < hi < |bs| && MergedAround(bs, lo, hi, mid)
    ensures Merged(Splice(bs, lo, hi, mid))
  {
    var r := Splice(bs, lo, hi, mid);
    SpliceIndex(bs, lo, hi, mid);
    forall k | 0 <= k < |r| - 1
      ensures r[k].used || r[k + 1].used
    {
      if k + 1 < lo {
        assert bs[k].used || bs[k + 1].used;
      } else if lo <= k && k + 1 < lo + |mid| {
        assert mid[k - lo].used || mid[k - lo + 1].used;
      } else if k >= lo + |mid| {
        var j := k - |mid| + (hi - lo);
        assert bs[j].used || bs[j + 1].used;
      }
    }
  }

  /** free' lists the free blocks of mid and the listed blocks outside [lo, hi). */
  /** No block of the stretch starts at f. */
  ghost predicate NoneAt(bs: seq<Block>, lo: nat, hi: nat, f: int)
    requires lo <= hi <= |bs|
  {
    forall k :: lo <= k < hi ==> bs[k].addr != f
  }

  ghost predicate ListedAround(bs: seq<Block>, free: seq<int>, lo: nat, hi: nat, mid: seq<Block>, free': seq<int>)
    requires lo <= hi <= |bs|
  {
    && Distinct(free')
    && (forall k :: 0 <= k < |mid| ==> (mid[k].used <==> mid[k].addr !in free'))
    && (forall f :: f in free' ==> HasBlock(mid, f) || (f in free && NoneAt(bs, lo, hi, f)))
    && (forall f :: f in free && NoneAt(bs, lo, hi, f) ==> f in free')
  }

  lemma SpliceListed(bs: seq<Block>, start: int, end: int, free: seq<int>,
                     lo: nat, hi: nat, mid: seq<Block>, free': seq<int>)
    requires Tiled(bs, start, end) && Listed(bs, free) && lo < hi < |bs|
    requires Covers(bs, lo, hi, mid) && ListedAround(bs, free, lo, hi, mid, free')
    ensures Listed(Splice(bs, lo, hi, mid), free')
  {
    var r := Splice(bs, lo, hi, mid);
    SpliceIndex(bs, lo, hi, mid);
    SpliceTiled(bs, start, end, lo, hi, mid);
    forall k | 0 <= k < |r|
      ensures r[k].used <==> r[k].addr !in free'
    {
      if lo <= k < lo + |mid| {
        assert r[k] == mid[k - lo];
      } else {
        var j := if k < lo then k else k - |mid| + (hi - lo);
        assert r[k] == bs[j];
        SpliceOutside(bs, start, end, lo, hi, mid, k);
        if r[k].addr in free' {
          assert !HasBlock(mid, r[k].addr);
        }
      }
    }
    forall f | f in free'
      ensures HasBlock(r, f)
    {
      if HasBlock(mid, f) {
        var k :| 0 <= k < |mid| && mid[k].addr == f;
        assert r[lo + k].addr == f;
      } else {
        var j :| 0 <= j < |bs| && bs[j].addr == f;
        assert r[if j < lo then j else j + |mid| - (hi - lo)].addr == f;
      }
    }
  }

  /** A block left untouched by a splice starts at none of the spliced addresses. */
  lemma SpliceOutside(bs: seq<Block>, start: int, end: int, lo: nat, hi: nat, mid: seq<Block>, k: nat)
    requires Tiled(bs, start, end) && lo < hi < |bs| && Covers(bs, lo, hi, mid)
    requires k < |Splice(bs, lo, hi, mid)| && !(lo <= k < lo + |mid|)
    ensures var a := Splice(bs, lo, hi, mid)[k].addr;
      (forall j :: 0 <= j < |mid| ==> mid[j].addr != a) && (forall j :: lo <= j < hi ==> bs[j].addr != a)
  {
    var r := Splice(bs, lo, hi, mid);
    SpliceIndex(bs, lo, hi, mid);
    SpliceTiled(bs, start, end, lo, hi, mid);
    forall j | 0 <= j < |mid|
      ensures mid[j].addr != r[k].addr
    {
      assert r[lo + j] == mid[j];
      if mid[j].addr == r[k].addr { SameAddress(r, start, end, lo + j, k); }
    }
    var i := if k < lo then k else k - |mid| + (hi - lo);
    forall j | lo <= j < hi
      ensures bs[j].addr != r[k].addr
    {
      if bs[j].addr == bs[i].addr { SameAddress(bs, start, end, i, j); }
    }
  }

  lemma SpliceValid(v: View, start: int, end: int, lo: nat, hi: nat, mid: seq<Block>, free': seq<int>)
    requires Valid(v, start, end) && lo < hi < |v.blocks|
    requires Covers(v.blocks, lo, hi, mid) && MergedAround(v.blocks, lo, hi, mid)
    requires ListedAround(v.blocks, v.free, lo, hi, mid, free')
    ensures Valid(View(Splice(v.blocks, lo, hi, mid), free'), start, end)
  {
    SpliceTiled(v.blocks, start, end, lo, hi, mid);
    SpliceMerged(v.blocks, lo, hi, mid);
    SpliceListed(v.blocks, start, end, v.free, lo, hi, mid, free');
  }

  // ---- every operation keeps the partition valid

  /** An address strictly inside a block is the address of no block. */
  lemma InsideBlock(bs: seq<Block>, start: int, end: int, i: nat, a: int)
    requires Tiled(bs, start, end) && i < |bs| && bs[i].addr < a < bs[i].End()
    ensures !HasBlock(bs, a)
  {
    forall j | 0 <= j < |bs|
      ensures bs[j].addr != a
    {
      if j < i { Ordered(bs, start, end, j, i); }
      if i < j { Ordered(bs, start, end, i, j); }
    }
  }

  lemma AllocLists(v: View, start: int, end: int, i: nat, want: nat)
    requires Valid(v, start, end) && i < |v.blocks| - 1
    requires !v.blocks[i].used && want <= v.blocks[i].size
    ensures ListedAround(v.blocks, v.free, i, i + 1, Carve(v.blocks[i], want), AllocAt(v, i, want).free)
  {
    var b := v.blocks[i];
    var mid, rest := Carve(b, want), Without(v.free, b.addr);
    FreeListed(v, start, end, i);
    WithoutMembers(v.free, b.addr);
    OneAt(v.blocks, i, i + 1);
    if CanSplit(b.size, want) {
      InsideBlock(v.blocks, start, end, i, mid[1].addr);
      assert mid[1].addr !in v.free;
      assert HasBlock(mid, mid[1].addr);
      PutFirst(mid[1].addr, rest);
    }
    hide Valid, NoneAt, HasBlock, Without, Distinct, Splice;
  }

  lemma FreeListed(v: View, start: int, end: int, i: nat)
    requires Valid(v, start, end) && i < |v.blocks| && !v.blocks[i].used
    ensures Distinct(v.free) && v.blocks[i].addr in v.free
  {
  }

  lemma OneAt(bs: seq<Block>, i: nat, hi: nat)
    requires i < |bs| && hi == i + 1
    ensures forall f :: NoneAt(bs, i, hi, f) <==> f != bs[i].addr
  {
  }

  lemma PutFirst(x: int, s: seq<int>)
    requires Distinct(s) && x !in s
    ensures Distinct([x] + s) && forall y :: y in [x] + s <==> y == x || y in s
  {
  }

  lemma AllocKeepsValid(v: View, start: int, end: int, i: nat, want: nat)
    requires Valid(v, start, end) && i < |v.blocks| - 1
    requires !v.blocks[i].used && want <= v.blocks[i].size
    ensures Valid(AllocAt(v, i, want), start, end)
  {
    var mid := Carve(v.blocks[i], want);
    AllocLists(v, start, end, i, want);
    assert v.blocks[i].used || v.blocks[i + 1].used;
    if i > 0 { assert v.blocks[i - 1].used; }
    SpliceValid(v, start, end, i, i + 1, mid, AllocAt(v, i, want).free);
  }

  lemma AllocFreeBytes(v: View, i: nat, want: nat)
    requires i < |v.blocks| && !v.blocks[i].used
    ensures FreeBytes(AllocAt(v, i, want).blocks)
         == FreeBytes(v.blocks) - if CanSplit(v.blocks[i].size, want) then want + HEADER else v.blocks[i].size
  {
    var b := v.blocks[i];
    var mid := Carve(b, want);
    FreeBytesSplice(v.blocks, i, i + 1, mid);
    assert v.blocks[i..i + 1] == [b];
    FreeBytesSmall(b, b, b);
    FreeBytesSmall(mid[0], mid[|mid| - 1], b);
  }

  /** WithoutRight drops exactly the free right neighbour. */
  lemma WithoutRightMembers(v: View, start: int, end: int, i: nat)
    requires Valid(v, start, end) && i < |v.blocks| - 1 && v.blocks[i].used
    ensures Distinct(WithoutRight(v, i))
    ensures forall f :: f in WithoutRight(v, i) <==> f in v.free && f != v.blocks[i + 1].addr
    ensures v.blocks[i].addr !in WithoutRight(v, i)
  {
    WithoutMembers(v.free, v.blocks[i + 1].addr);
  }

  /** Which of the blocks that freeing block i joins are listed. */
  lemma StretchListed(v: View, start: int, end: int, i: nat)
    requires Valid(v, start, end) && i < |v.blocks| - 1 && v.blocks[i].used
    ensures var bs := v.blocks;
      && Distinct(v.free) && bs[i].addr !in v.free && (bs[i + 1].addr in v.free <==> RightFree(v, i))
      && (LeftFree(v, i) ==> bs[i - 1].addr in v.free && bs[i - 1].addr < bs[i].addr) && bs[i].addr < bs[i + 1].addr
  {
    assert v.blocks[i].End() == v.blocks[i + 1].addr;
    if LeftFree(v, i) { assert v.blocks[i - 1].End() == v.blocks[i].addr; }
  }

  /** A free list w that has lost the right neighbour's entry, before the joined block is put on it. */
  lemma OthersListed(v: View, start: int, end: int, i: nat, f: int)
    requires Valid(v, start, end) && i < |v.blocks| - 1 && v.blocks[i].used
    ensures f in WithoutRight(v, i) && (LeftFree(v, i) ==> f != v.blocks[i - 1].addr) <==>
      f in v.free && NoneAt(v.blocks, FreeLo(v, i), FreeHi(v, i) + 1, f)
  {
    StretchListed(v, start, end, i);
    WithoutRightMembers(v, start, end, i);
    NoneAtEnds(v.blocks, FreeLo(v, i), i, FreeHi(v, i), f);
    hide Valid, WithoutRight, Distinct, NoneAt;
  }

  lemma NoneAtEnds(bs: seq<Block>, lo: nat, i: nat, hi: nat, f: int)
    requires i - 1 <= lo <= i <= hi <= i + 1 && hi < |bs|
    ensures NoneAt(bs, lo, hi + 1, f) <==> bs[lo].addr != f && bs[i].addr != f && bs[hi].addr != f
  {
    if bs[lo].addr != f && bs[i].addr != f && bs[hi].addr != f {
      forall k | lo <= k < hi + 1
        ensures bs[k].addr != f
      {
        assert k == lo || k == i || k == hi;
      }
    }
  }

  /** A free list that names, with the exception of block j itself, what lies outside a stretch, lists j and the outside. */
  lemma JoinedAround(bs: seq<Block>, free: seq<int>, lo: nat, hi: nat, j: Block, left: bool, right: seq<int>, free': seq<int>)
    requires lo <= hi <= |bs| && Distinct(right) && !j.used && (left <==> j.addr in right)
    requires free' == if left then right else [j.addr] + right
    requires forall f :: f in right && f != j.addr <==> f in free && NoneAt(bs, lo, hi, f)
    ensures ListedAround(bs, free, lo, hi, [j], free')
  {
    hide NoneAt, HasBlock, Distinct;
    HasFirst([j]);
    if !left { PutFirst(j.addr, right); }
  }

  lemma FreeLists(v: View, start: int, end: int, i: nat)
    requires Valid(v, start, end) && i < |v.blocks| - 1 && v.blocks[i].used
    ensures ListedAround(v.blocks, v.free, FreeLo(v, i), FreeHi(v, i) + 1, [Joined(v, FreeLo(v, i), FreeHi(v, i))], FreeAt(v, i).free)
  {
    StretchListed(v, start, end, i);
    WithoutRightMembers(v, start, end, i);
    var lo, hi, right := FreeLo(v, i), FreeHi(v, i), WithoutRight(v, i);
    var j := Joined(v, lo, hi);
    JoinedFree(v, lo, hi);
    hide Valid, WithoutRight, Splice, Distinct, Joined, NoneAt, ListedAround;
    forall f
      ensures f in right && f != j.addr <==> f in v.free && NoneAt(v.blocks, lo, hi + 1, f)
    {
      OthersListed(v, start, end, i, f);
    }
    JoinedAround(v.blocks, v.free, lo, hi + 1, j, LeftFree(v, i), right, FreeAt(v, i).free);
  }

  lemma HasFirst(mid: seq<Block>)
    requires mid != []
    ensures HasBlock(mid, mid[0].addr)
  {
  }

  lemma FreeKeepsValid(v: View, start: int, end: int, i: nat)
    requires Valid(v, start, end) && i < |v.blocks| - 1 && v.blocks[i].used
    ensures Valid(FreeAt(v, i), start, end)
  {
    var lo, hi := FreeLo(v, i), FreeHi(v, i);
    FreeLists(v, start, end, i);
    assert v.blocks[i].End() == v.blocks[i + 1].addr;
    if LeftFree(v, i) { assert v.blocks[i - 1].End() == v.blocks[i].addr; }
    FreeNeighbours(v, start, end, i);
    SpliceValid(v, start, end, lo, hi + 1, [Joined(v, lo, hi)], FreeAt(v, i).free);
  }

  /** Around the joined stretch everything is in use. */
  lemma FreeNeighbours(v: View, start: int, end: int, i: nat)
    requires Valid(v, start, end) && i < |v.blocks| - 1 && v.blocks[i].used
    ensures FreeHi(v, i) + 1 < |v.blocks| && v.blocks[FreeHi(v, i) + 1].used
    ensures FreeLo(v, i) > 0 ==> v.blocks[FreeLo(v, i) - 1].used
  {
    if RightFree(v, i) { assert v.blocks[i + 2].used; }
    if i > 1 && LeftFree(v, i) { assert v.blocks[i - 2].used; }
  }

  lemma StretchBytes(v: View, i: nat)
    requires i < |v.blocks| && v.blocks[i].used
    ensures FreeBytes(v.blocks[FreeLo(v, i)..FreeHi(v, i) + 1])
         == (if LeftFree(v, i) then v.blocks[i - 1].size else 0) + (if RightFree(v, i) then v.blocks[i + 1].size else 0)
  {
    hide FreeBytes;
    var lo, hi, b := FreeLo(v, i), FreeHi(v, i), v.blocks[i];
    FreeBytesSmall(v.blocks[lo], b, v.blocks[hi]);
    FreeBytesSmall(v.blocks[lo], v.blocks[hi], b);
    FreeBytesSmall(v.blocks[hi], b, b);
    FreeBytesSmall(b, b, b);
    if lo < i < hi {
      assert v.blocks[lo..hi + 1] == [v.blocks[lo], b, v.blocks[hi]];
    } else if lo < hi {
      assert v.blocks[lo..hi + 1] == [v.blocks[lo], v.blocks[hi]];
    } else {
      assert v.blocks[lo..hi + 1] == [b];
    }
  }

  lemma JoinedSize(v: View, start: int, end: int, i: nat)
    requires Valid(v, start, end) && i < |v.blocks| - 1 && v.blocks[i].used
    ensures v.blocks[i].size >= 0
    ensures Joined(v, FreeLo(v, i), FreeHi(v, i)).size == v.blocks[i].size
         + (if LeftFree(v, i) then v.blocks[i - 1].size + HEADER else 0) + (if RightFree(v, i) then v.blocks[i + 1].size + HEADER else 0)
  {
    assert v.blocks[i].End() == v.blocks[i + 1].addr;
    if LeftFree(v, i) { assert v.blocks[i - 1].End() == v.blocks[i].addr; }
  }

  lemma FreeFreeBytes(v: View, start: int, end: int, i: nat)
    requires Valid(v, start, end) && i < |v.blocks| - 1 && v.blocks[i].used
    ensures FreeBytes(FreeAt(v, i).blocks)
         == FreeBytes(v.blocks) + v.blocks[i].size
            + (if LeftFree(v, i) then HEADER else 0) + (if RightFree(v, i) then HEADER else 0)
    ensures v.blocks[i].size >= 0
  {
    hide Valid, FreeBytes, Joined;
    var lo, hi := FreeLo(v, i), FreeHi(v, i);
    var m := Joined(v, lo, hi);
    JoinedSize(v, start, end, i);
    JoinedFree(v, lo, hi);
    FreeBytesSplice(v.blocks, lo, hi + 1, [m]);
    FreeBytesSmall(m, m, m);
    StretchBytes(v, i);
  }

  lemma JoinedFree(v: View, lo: nat, hi: nat)
    requires lo < |v.blocks| && hi < |v.blocks|
    ensures !Joined(v, lo, hi).used && Joined(v, lo, hi).addr == v.blocks[lo].addr
  {
  }

  ghost predicate CanResize(v: View, i: nat, want: nat)
    requires i < |v.blocks| - 1
  {
    v.blocks[i].used && Resized(v, i, want)[1].size > 0
  }

  /** The header of what is cut off lies on no block but a free right neighbour. */
  lemma TailUnlisted(v: View, start: int, end: int, i: nat, want: nat)
    requires Valid(v, start, end) && i < |v.blocks| - 1 && CanResize(v, i, want)
    ensures var a := Resized(v, i, want)[1].addr;
      && v.blocks[i].addr < a && (a == v.blocks[i + 1].addr || !HasBlock(v.blocks, a))
      && (a == v.blocks[i + 1].addr ==> RightFree(v, i))
  {
    var mid := Resized(v, i, want);
    var b, c := v.blocks[i], v.blocks[i + 1];
    assert b.End() == c.addr;
    if mid[1].addr < b.End() {
      InsideBlock(v.blocks, start, end, i, mid[1].addr);
    } else if RightFree(v, i) && mid[1].addr > c.addr {
      InsideBlock(v.blocks, start, end, i + 1, mid[1].addr);
    }
  }

  lemma ListedHas(v: View, start: int, end: int)
    requires Valid(v, start, end)
    ensures forall f :: f in v.free ==> HasBlock(v.blocks, f)
  {
  }

  /** The same for a used block and a free rest in the place of the stretch. */
  lemma ResizedAround(bs: seq<Block>, free: seq<int>, lo: nat, hi: nat, b: Block, rest: Block, right: seq<int>)
    requires lo <= hi <= |bs| && Distinct(right) && b.used && !rest.used && b.addr != rest.addr && b.addr !in right && rest.addr !in right
    requires forall f :: f in right <==> f in free && NoneAt(bs, lo, hi, f)
    ensures ListedAround(bs, free, lo, hi, [b, rest], [rest.addr] + right)
  {
    hide NoneAt, Distinct;
    PutFirst(rest.addr, right);
    assert [b, rest][1].addr == rest.addr;
  }

  /** The free list without the right neighbour names what lies outside the stretch that a used block and it make up. */
  lemma RightOutside(v: View, start: int, end: int, i: nat, f: int)
    requires Valid(v, start, end) && i < |v.blocks| - 1 && v.blocks[i].used
    ensures f in WithoutRight(v, i) <==> f in v.free && NoneAt(v.blocks, i, FreeHi(v, i) + 1, f)
  {
    StretchListed(v, start, end, i);
    WithoutRightMembers(v, start, end, i);
    var hi := FreeHi(v, i);
    assert v.blocks[i].addr == f || v.blocks[hi].addr == f ==> exists k :: i <= k < hi + 1 && v.blocks[k].addr == f;
    hide Valid, WithoutRight, Distinct;
  }

  lemma RestUnlisted(v: View, start: int, end: int, i: nat, want: nat)
    requires Valid(v, start, end) && i < |v.blocks| - 1 && CanResize(v, i, want)
    ensures var mid := Resized(v, i, want);
      && mid[0].used && !mid[1].used && mid[0].addr != mid[1].addr
      && mid[0].addr !in WithoutRight(v, i) && mid[1].addr !in WithoutRight(v, i) && Distinct(WithoutRight(v, i))
  {
    WithoutRightMembers(v, start, end, i);
    TailUnlisted(v, start, end, i, want);
    ListedHas(v, start, end);
    hide Valid, WithoutRight, Distinct;
  }

  lemma ResizeLists(v: View, start: int, end: int, i: nat, want: nat)
    requires Valid(v, start, end) && i < |v.blocks| - 1 && CanResize(v, i, want)
    ensures ListedAround(v.blocks, v.free, i, FreeHi(v, i) + 1, Resized(v, i, want), ResizeAt(v, i, want).free)
  {
    RestUnlisted(v, start, end, i, want);
    hide Valid, WithoutRight, Splice, NoneAt, ListedAround, Distinct;
    forall f
      ensures f in WithoutRight(v, i) <==> f in v.free && NoneAt(v.blocks, i, FreeHi(v, i) + 1, f)
    {
      RightOutside(v, start, end, i, f);
    }
    var mid := Resized(v, i, want);
    ResizedAround(v.blocks, v.free, i, FreeHi(v, i) + 1, mid[0], mid[1], WithoutRight(v, i));
  }

  lemma ResizeKeepsValid(v: View, start: int, end: int, i: nat, want: nat)
    requires Valid(v, start, end) && i < |v.blocks| - 1 && CanResize(v, i, want)
    ensures Valid(ResizeAt(v, i, want), start, end)
  {
    ResizeLists(v, start, end, i, want);
    assert v.blocks[i].End() == v.blocks[i + 1].addr;
    FreeNeighbours(v, start, end, i);
    SpliceValid(v, start, end, i, FreeHi(v, i) + 1, Resized(v, i, want), ResizeAt(v, i, want).free);
  }

  lemma OneOrTwo(bs: seq<Block>, i: nat, hi: nat)
    requires i <= hi <= i + 1 && hi < |bs|
    ensures bs[i..hi + 1] == if hi == i then [bs[i]] else [bs[i], bs[hi]]
  {
  }

  lemma ResizeFreeBytes(v: View, start: int, end: int, i: nat, want: nat)
    requires Valid(v, start, end) && i < |v.blocks| - 1 && CanResize(v, i, want)
    ensures FreeBytes(ResizeAt(v, i, want).blocks)
         == FreeBytes(v.blocks) + v.blocks[i].size - want - if RightFree(v, i) then 0 else HEADER
  {
    var mid, hi := Resized(v, i, want), FreeHi(v, i);
    FreeBytesSplice(v.blocks, i, hi + 1, mid);
    FreeBytesSmall(mid[0], mid[1], mid[1]);
    FreeBytesSmall(v.blocks[i], v.blocks[hi], v.blocks[hi]);
    OneOrTwo(v.blocks, i, hi);
    assert v.blocks[i].End() == v.blocks[i + 1].addr;
    hide Valid, FreeBytes, Splice;
  }

  /** A block that is to hold more stays where it is exactly if there is room behind it. */
  lemma GrowsWhere(v: View, start: int, end: int, i: nat, want: nat)
    requires Valid(v, start, end) && i < |v.blocks| - 1 && want > v.blocks[i].size
    ensures GrowsInPlace(v, i, want) <==> RoomBehind(v, i, want)
  {
    assert v.blocks[i].End() == v.blocks[i + 1].addr;
  }

  // ---- growing in place, in two steps

  lemma JoinedIndex(v: View, i: nat)
    requires i < |v.blocks| - 1
    ensures var lo, hi, w := FreeLo(v, i), FreeHi(v, i), FreeAt(v, i).blocks;
      && |w| == |v.blocks| - (hi - lo)
      && forall k :: 0 <= k < |w| ==>
           w[k] == if k == lo then Joined(v, lo, hi) else v.blocks[if k < lo then k else k + (hi - lo)]
  {
    SpliceIndex(v.blocks, FreeLo(v, i), FreeHi(v, i) + 1, [Joined(v, FreeLo(v, i), FreeHi(v, i))]);
  }

  /** Block i grown over its right neighbour. */
  function Absorbed(v: View, i: nat): Block
    requires i + 1 < |v.blocks|
  {
    v.blocks[i].(size := v.blocks[i + 1].End() - v.blocks[i].addr - HEADER)
  }

  function AbsorbRight(v: View, i: nat): View
    requires i + 1 < |v.blocks|
  {
    View(Splice(v.blocks, i, i + 2, [Absorbed(v, i)]), Without(v.free, v.blocks[i + 1].addr))
  }

  lemma AbsorbIndex(v: View, i: nat)
    requires i + 1 < |v.blocks|
    ensures var w := AbsorbRight(v, i).blocks;
      && |w| == |v.blocks| - 1
      && forall k :: 0 <= k < |w| ==>
           w[k] == if k == i then Absorbed(v, i)
                   else v.blocks[if k < i then k else k + 1]
  {
    SpliceIndex(v.blocks, i, i + 2, [Absorbed(v, i)]);
  }

  lemma AbsorbLists(v: View, start: int, end: int, i: nat)
    requires Valid(v, start, end) && i < |v.blocks| - 1 && v.blocks[i].used && RightFree(v, i)
    ensures ListedAround(v.blocks, v.free, i, i + 2, [Absorbed(v, i)], AbsorbRight(v, i).free)
  {
    var free', mid := AbsorbRight(v, i).free, [Absorbed(v, i)];
    WithoutRightMembers(v, start, end, i);
    forall f | f in free'
      ensures f in v.free && forall k :: i <= k < i + 2 ==> v.blocks[k].addr != f
    {
    }
    assert mid[0].addr !in free';
  }

  lemma AbsorbKeepsValid(v: View, start: int, end: int, i: nat)
    requires Valid(v, start, end) && i < |v.blocks| - 1 && v.blocks[i].used && RightFree(v, i)
    ensures Valid(AbsorbRight(v, i), start, end)
  {
    FreeNeighbours(v, start, end, i);
    assert v.blocks[i].End() == v.blocks[i + 1].addr;
    AbsorbLists(v, start, end, i);
    SpliceValid(v, start, end, i, i + 2, [Absorbed(v, i)], AbsorbRight(v, i).free);
  }

  /** Resizing over a free neighbour is absorbing it first and then resizing. */
  /** Replacing block i of what remains after two blocks became one replaces the two. */
  lemma SpliceTwice(bs: seq<Block>, i: nat, one: Block, mid: seq<Block>)
    requires i + 1 < |bs|
    ensures i < |Splice(bs, i, i + 2, [one])|
    ensures Splice(Splice(bs, i, i + 2, [one]), i, i + 1, mid) == Splice(bs, i, i + 2, mid)
  {
    var w := Splice(bs, i, i + 2, [one]);
    assert w[..i] == bs[..i] && w[i + 1..] == bs[i + 2..];
  }

  /** What is cut from the absorbed block is what is cut from the two. */
  lemma AbsorbedResized(v: View, i: nat, want: nat)
    requires i < |v.blocks| - 1 && RightFree(v, i) && v.blocks[i].End() == v.blocks[i + 1].addr
    requires var w := AbsorbRight(v, i); i < |w.blocks| - 1 && !RightFree(w, i) && w.blocks[i] == Absorbed(v, i)
    ensures Resized(AbsorbRight(v, i), i, want) == Resized(v, i, want)
    ensures WithoutRight(AbsorbRight(v, i), i) == WithoutRight(v, i)
  {
  }

  lemma AbsorbedRight(v: View, start: int, end: int, i: nat)
    requires Valid(v, start, end) && i < |v.blocks| - 1 && v.blocks[i].used && RightFree(v, i)
    ensures var w := AbsorbRight(v, i).blocks; i < |w| - 1 && !RightFree(AbsorbRight(v, i), i) && w[i] == Absorbed(v, i)
    ensures v.blocks[i].End() == v.blocks[i + 1].addr
  {
    hide Splice;
    FreeNeighbours(v, start, end, i);
    AbsorbIndex(v, i);
  }

  lemma ResizeAbsorbed(v: View, start: int, end: int, i: nat, want: nat)
    requires Valid(v, start, end) && i < |v.blocks| - 1 && v.blocks[i].used && RightFree(v, i)
    ensures i < |AbsorbRight(v, i).blocks| - 1 && !RightFree(AbsorbRight(v, i), i)
    ensures ResizeAt(AbsorbRight(v, i), i, want) == ResizeAt(v, i, want)
  {
    hide Valid, Splice, Resized, WithoutRight;
    AbsorbedRight(v, start, end, i);
    AbsorbedResized(v, i, want);
    SpliceTwice(v.blocks, i, Absorbed(v, i), Resized(v, i, want));
  }

  lemma InitialValid(start: int, pool: int)
    requires pool >= 2 * HEADER
    ensures HeapSpec.Valid(Initial(start, pool), start, start + pool - HEADER)
    ensures FreeBytes(Initial(start, pool).blocks) == pool - 2 * HEADER
  {
    var v := Initial(start, pool);
    assert v.blocks[0].addr == start;
    FreeBytesSmall(v.blocks[0], v.blocks[1], v.blocks[1]);
  }

  /** A listed address is that of a free block, and not the tailer. */
  lemma FindListed(v: View, start: int, end: int, f: int) returns (i: nat)
    requires Valid(v, start, end) && f in v.free
    ensures i < |v.blocks| - 1 && v.blocks[i].addr == f && !v.blocks[i].used
    ensures i == Find(v.blocks, f) && SizeAt(v, f) == v.blocks[i].size
  {
    i := Find(v.blocks, f);
  }

  lemma FirstFitStep(v: View, want: int, k: nat)
    requires Named(v.blocks, v.free) && k < |v.free|
    ensures HasBlock(v.blocks, v.free[k])
    ensures FirstFit(v, want, k) == if SizeAt(v, v.free[k]) >= want then Some(k) else FirstFit(v, want, k + 1)
  {
    assert v.free[k] in v.free;
  }

  /** The chosen block is free and large enough. */
  lemma ChosenFits(v: View, start: int, end: int, want: int)
    requires Valid(v, start, end) && FirstFit(v, want).Some?
    ensures var i := Chosen(v, want); i < |v.blocks| - 1 && !v.blocks[i].used && v.blocks[i].size >= want
    ensures v.blocks[Chosen(v, want)].addr == v.free[FirstFit(v, want).value]
    ensures v.blocks[Chosen(v, want)].addr in v.free
    ensures SizeAt(v, v.free[FirstFit(v, want).value]) == v.blocks[Chosen(v, want)].size
  {
    FirstFitFits(v, want, 0);
    var i := FindListed(v, start, end, v.free[FirstFit(v, want).value]);
  }

  /** FirstFit is a first fit: what it skips is too small, what it takes is not, and it gives up only at the end. */
  lemma {:induction false} FirstFitFits(v: View, want: int, k: nat)
    requires Named(v.blocks, v.free) && k <= |v.free|
    ensures var r := FirstFit(v, want, k);
      && (r.Some? ==> v.free[r.value] in v.free && SizeAt(v, v.free[r.value]) >= want)
      && (forall j :: k <= j < (if r.Some? then r.value else |v.free|) ==> v.free[j] in v.free && SizeAt(v, v.free[j]) < want)
    decreases |v.free| - k
  {
    if k < |v.free| {
      FirstFitStep(v, want, k);
      FirstFitFits(v, want, k + 1);
    }
  }

  lemma ValidNamed(v: View, start: int, end: int)
    requires Valid(v, start, end)
    ensures Named(v.blocks, v.free)
    ensures |v.blocks| >= 2
  {
  }

  lemma PointsTo(v: View, start: int, end: int, ptr: int) returns (i: nat)
    requires Valid(v, start, end) && exists i :: InUse(v, i, ptr)
    ensures InUse(v, i, ptr) && HasBlock(v.blocks, ptr - HEADER) && i == Find(v.blocks, ptr - HEADER)
  {
    i :| InUse(v, i, ptr);
    assert v.blocks[i].addr == ptr - HEADER;
    SameAddress(v.blocks, start, end, i, Find(v.blocks, ptr - HEADER));
  }

  // ---- reallocation

  lemma AllocIndex(v: View, c: nat, want: nat)
    requires c < |v.blocks|
    ensures var w := AllocAt(v, c, want).blocks; var d := if CanSplit(v.blocks[c].size, want) then 1 else 0;
      && |w| == |v.blocks| + d
      && (forall k :: 0 <= k < c ==> w[k] == v.blocks[k])
      && (forall k :: c < k < |v.blocks| ==> w[k + d] == v.blocks[k])
      && w[c] == Block(v.blocks[c].addr, if d == 1 then want else v.blocks[c].size, true)
  {
    SpliceIndex(v.blocks, c, c + 1, Carve(v.blocks[c], want));
  }

  lemma AllocIs(v: View, want: nat)
    requires Named(v.blocks, v.free) && !Refuses(v, want)
    ensures FirstFit(v, want).Some? && Alloc(v, want) == AllocAt(v, Chosen(v, want), want)
  {
  }

  /** A block in use stays where it is, and as it is, when another one is allocated. */
  lemma AllocKeepsBlock(v: View, start: int, end: int, i: nat, want: nat)
    requires Valid(v, start, end) && i < |v.blocks| - 1 && v.blocks[i].used && !Refuses(v, want)
    ensures var w, k := Alloc(v, want), MovedIndex(v, i, want);
      && k < |w.blocks| - 1 && w.blocks[k] == v.blocks[i] && k != Chosen(v, want) < |w.blocks| - 1
      && w.blocks[Chosen(v, want)].used && w.blocks[Chosen(v, want)].size >= want
      && w.blocks[Chosen(v, want)].addr == v.blocks[Chosen(v, want)].addr
  {
    ListedHas(v, start, end);
    ChosenFits(v, start, end, want);
    AllocIs(v, want);
    hide Valid, FirstFit, AllocAt, Named, Refuses, Alloc, Chosen;
    AllocIndex(v, Chosen(v, want), want);
  }

  lemma ResizedIndex(v: View, i: nat, want: int)
    requires i < |v.blocks| - 1
    ensures var w, d := ResizeAt(v, i, want).blocks, FreeHi(v, i) - i;
      && |w| == |v.blocks| + 1 - d
      && w[i] == Resized(v, i, want)[0] && w[i + 1] == Resized(v, i, want)[1]
      && (forall k :: 0 <= k < i ==> w[k] == v.blocks[k])
      && (forall k :: i + 1 < k < |w| ==> w[k] == v.blocks[k - 1 + d])
  {
    SpliceIndex(v.blocks, i, FreeHi(v, i) + 1, Resized(v, i, want));
  }

  /** Two neighbours and a header between them fit the pool. */
  lemma PairFits(v: View, start: int, end: int, i: nat)
    requires Valid(v, start, end) && i + 1 < |v.blocks|
    ensures v.blocks[i].size >= 0 && v.blocks[i + 1].size >= 0
    ensures start + HEADER + v.blocks[i].size + v.blocks[i + 1].size <= end
  {
    if i > 0 { Ordered(v.blocks, start, end, 0, i); }
    if i + 1 < |v.blocks| - 1 { Ordered(v.blocks, start, end, i + 1, |v.blocks| - 1); }
    assert v.blocks[i].End() == v.blocks[i + 1].addr;
  }

  /** Growing in place leaves room for the header of what remains of the neighbour. */
  lemma GrowRoom(v: View, start: int, end: int, i: nat, want: nat)
    requires Valid(v, start, end) && i < |v.blocks| - 1 && v.blocks[i].used && GrowsInPlace(v, i, want)
    ensures CanResize(v, i, want) && i < |AbsorbRight(v, i).blocks| - 1
    ensures AbsorbRight(v, i).blocks[i] == Absorbed(v, i)
    ensures v.blocks[i].addr + HEADER + want + HEADER <= Absorbed(v, i).End()
    ensures v.blocks[i].End() == v.blocks[i + 1].addr
  {
    FreeNeighbours(v, start, end, i);
    AbsorbIndex(v, i);
    assert v.blocks[i].End() == v.blocks[i + 1].addr;
  }

  lemma ShrinkRoom(v: View, start: int, end: int, i: nat, want: nat)
    requires Valid(v, start, end) && i < |v.blocks| - 1 && v.blocks[i].used && Shrinks(v, i, want)
    ensures CanResize(v, i, want)
    ensures v.blocks[i].addr + HEADER + want + HEADER <= v.blocks[i].End()
    ensures v.blocks[i].End() == v.blocks[i + 1].addr
    ensures RightFree(v, i) ==> v.blocks[i + 1].size >= 0
    ensures forall x :: x in WithoutRight(v, i) ==> x in v.free
  {
    WithoutRightMembers(v, start, end, i);
    assert v.blocks[i].End() == v.blocks[i + 1].addr;
  }

  lemma PointsAt(v: View, start: int, end: int, i: nat, ptr: int)
    requires Valid(v, start, end) && InUse(v, i, ptr)
    ensures HasBlock(v.blocks, ptr - HEADER) && i == Find(v.blocks, ptr - HEADER)
  {
    assert v.blocks[i].addr == ptr - HEADER;
    SameAddress(v.blocks, start, end, i, Find(v.blocks, ptr - HEADER));
  }

  lemma RefusedIsSame(v: View, want: int)
    requires Named(v.blocks, v.free)
    ensures Refuses(v, want) ==> Alloc(v, want) == v
  {
  }
}
