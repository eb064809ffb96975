// How a partition of the pool lies in memory: the block ring, the free ring and
// the header flags, and what each group of link writes in memheap.c does to them.
// Holds ties a heap on values to the fields of its headers. The lemmas follow the
// writes of one operation in the order the code makes them, and say for each group
// that the two rings and the flags again spell out the partition that the operation
// has on values; writes elsewhere, to payloads or to another heap, leave them alone.
module MemHeapLinks {
  import opened Seqs
  import opened Words
  import opened HeapSpec
  import opened HeapLaws
  import opened Memory
  import Ring

  const NULL := 0

  function Addrs(bs: seq<Block>): (s: seq<int>)
    ensures |s| == |bs|
    ensures forall i :: 0 <= i < |bs| ==> s[i] == bs[i].addr
  {
    seq(|bs|, i requires 0 <= i < |bs| => bs[i].addr)
  }

  /** The flags and owners in memory are those of the blocks. */
  ghost predicate Tagged(used: map<int, bool>, pool: map<int, int>, id: int, bs: seq<Block>) {
    && (forall i :: 0 <= i < |bs| ==> bs[i].addr in used && used[bs[i].addr] == bs[i].used)
    && (forall i :: 0 <= i < |bs| ==> bs[i].addr in pool && pool[bs[i].addr] == id)
  }

  /** Memory m holds partition v: both rings, flags and owners. */
  ghost predicate Holds(m: Mem, id: int, sentinel: int, v: View) {
    && Ring.IsRing(m.next, m.prev, Addrs(v.blocks))
    && Ring.IsRing(m.nextFree, m.prevFree, [sentinel] + v.free)
    && Tagged(m.used, m.pool, id, v.blocks)
  }

  // ---- the three link updates the allocator is made of

  function Linked(m: Mem, h: int, n: int): Mem
    requires h in m.next
  {
    m.(next := m.next[n := m.next[h]][h := n], prev := m.prev[n := h][m.next[h] := n])
  }

  function Unlinked(m: Mem, f: int): Mem
    requires f in m.next && f in m.prev
  {
    m.(next := m.next[m.prev[f] := m.next[f]], prev := m.prev[m.next[f] := m.prev[f]])
  }

  function FreeUnlinked(m: Mem, f: int): Mem
    requires f in m.nextFree && f in m.prevFree
  {
    m.(nextFree := m.nextFree[m.prevFree[f] := m.nextFree[f]], prevFree := m.prevFree[m.nextFree[f] := m.prevFree[f]])
  }

  function FreePushed(m: Mem, sentinel: int, f: int): Mem
    requires sentinel in m.nextFree
  {
    m.(nextFree := m.nextFree[f := m.nextFree[sentinel]][sentinel := f],
       prevFree := m.prevFree[f := sentinel][m.nextFree[sentinel] := f])
  }

  lemma LinkedRing(m: Mem, s: seq<int>, k: nat, n: int)
    requires Ring.IsRing(m.next, m.prev, s) && k < |s| && n !in s
    ensures s[k] in m.next
    ensures var m' := Linked(m, s[k], n); Ring.IsRing(m'.next, m'.prev, InsertAt(s, k + 1, n))
  {
    Ring.Insert(m.next, m.prev, s, k, n);
  }

  lemma UnlinkedRing(m: Mem, s: seq<int>, k: nat)
    requires Ring.IsRing(m.next, m.prev, s) && k < |s| && |s| >= 2
    ensures s[k] in m.next && s[k] in m.prev
    ensures var m' := Unlinked(m, s[k]); Ring.IsRing(m'.next, m'.prev, RemoveAt(s, k))
  {
    Ring.Remove(m.next, m.prev, s, k);
  }

  lemma RemoveBehind(x: int, s: seq<int>, i: nat)
    requires i < |s|
    ensures RemoveAt([x] + s, i + 1) == [x] + RemoveAt(s, i)
  {
    var l, r := RemoveAt([x] + s, i + 1), [x] + RemoveAt(s, i);
    forall j | 0 <= j < |r|
      ensures l[j] == r[j]
    {
      if 0 < j <= i {
        assert l[j] == s[j - 1] == r[j];
      }
    }
  }

  lemma RemoveFromTail(x: int, s: seq<int>, f: int)
    requires f in s
    ensures var k := IndexOf(s, f) + 1;
      ([x] + s)[k] == f && RemoveAt([x] + s, k) == [x] + Without(s, f)
  {
    hide RemoveAt, IndexOf;
    RemoveBehind(x, s, IndexOf(s, f));
  }

  lemma FreeUnlinkedRing(m: Mem, sentinel: int, free: seq<int>, f: int)
    requires Ring.IsRing(m.nextFree, m.prevFree, [sentinel] + free) && f in free
    ensures f in m.nextFree && f in m.prevFree
    ensures var m' := FreeUnlinked(m, f);
      Ring.IsRing(m'.nextFree, m'.prevFree, [sentinel] + Without(free, f))
  {
    var s, k := [sentinel] + free, IndexOf(free, f) + 1;
    RemoveFromTail(sentinel, free, f);
    Ring.Remove(m.nextFree, m.prevFree, s, k);
  }

  lemma FreePushedRing(m: Mem, sentinel: int, free: seq<int>, f: int)
    requires Ring.IsRing(m.nextFree, m.prevFree, [sentinel] + free) && f !in free && f != sentinel
    ensures sentinel in m.nextFree
    ensures var m' := FreePushed(m, sentinel, f);
      Ring.IsRing(m'.nextFree, m'.prevFree, [sentinel] + ([f] + free))
  {
    var s := [sentinel] + free;
    assert s[0] == sentinel;
    Ring.Insert(m.nextFree, m.prevFree, s, 0, f);
    assert InsertAt(s, 1, f) == [sentinel] + ([f] + free);
  }

  /** Overwriting bytes away from the headers of a heap leaves the heap in place. */
  lemma OverwriteHolds(m: Mem, id: int, sentinel: int, v: View, a: int, bytes: seq<byte>)
    requires Holds(m, id, sentinel, v)
    requires 0 <= a && a + |bytes| <= |m.ram|
    requires forall i :: 0 <= i < |v.blocks| ==> Apart(v.blocks[i].addr, a, |bytes|)
    requires forall f :: f in v.free ==> HasBlock(v.blocks, f)
    requires Apart(sentinel, a, |bytes|)
    ensures Holds(Overwrite(m, a, bytes), id, sentinel, v)
  {
    var m' := Overwrite(m, a, bytes);
    var s := [sentinel] + v.free;
    forall x | x in s
      ensures Apart(x, a, |bytes|)
    {
    }
    Ring.Frame(m.nextFree, m.prevFree, m'.nextFree, m'.prevFree, s);
    Ring.Frame(m.next, m.prev, m'.next, m'.prev, Addrs(v.blocks));
  }

  /** A header leaves the free list and has its free links cleared. */
  function Taken(m: Mem, f: int): Mem
    requires f in m.nextFree && f in m.prevFree
  {
    var u := FreeUnlinked(m, f);
    u.(nextFree := u.nextFree[f := NULL], prevFree := u.prevFree[f := NULL])
  }

  lemma TakenRing(m: Mem, sentinel: int, free: seq<int>, f: int)
    requires Ring.IsRing(m.nextFree, m.prevFree, [sentinel] + free) && f in free
    ensures f in m.nextFree && f in m.prevFree
    ensures var m' := Taken(m, f);
      Ring.IsRing(m'.nextFree, m'.prevFree, [sentinel] + Without(free, f))
  {
    FreeUnlinkedRing(m, sentinel, free, f);
    var u, m' := FreeUnlinked(m, f), Taken(m, f);
    var s := [sentinel] + free;
    assert free == s[1..] && s[0] == sentinel;
    FreeIsDistinct(sentinel, free);
    WithoutMembers(free, f);
    Ring.Frame(u.nextFree, u.prevFree, m'.nextFree, m'.prevFree, [sentinel] + Without(free, f));
  }

  lemma FreeIsDistinct(sentinel: int, free: seq<int>)
    requires Distinct([sentinel] + free)
    ensures Distinct(free) && sentinel !in free
  {
    var s := [sentinel] + free;
    assert forall i :: 0 <= i < |free| ==> free[i] == s[i + 1];
    assert s[0] == sentinel;
  }

  /** A new free header n behind header h of heap id: magic, owner, block links. */
  function Divided(m: Mem, id: int, h: int, n: int, junk: seq<byte>): Mem
    requires 0 <= n && n + |junk| <= |m.ram| && h in m.next && Apart(h, n, |junk|)
  {
    var w := WithMagic(m, n, junk);
    Linked(w.(pool := w.pool[n := id]), h, n)
  }

  /** Where a heap keeps things: its blocks fill [start, end + HEADER) of memory, and its sentinel lies elsewhere. */
  ghost predicate Placed(m: Mem, start: int, end: int, sentinel: int) {
    NULL < start && end + HEADER <= |m.ram| && Apart(sentinel, start, end + HEADER - start)
  }

  lemma AddrsSplit(bs: seq<Block>, i: nat, b: Block, c: Block)
    requires i < |bs| && b.addr == bs[i].addr
    ensures Addrs(Splice(bs, i, i + 1, [b, c])) == InsertAt(Addrs(bs), i + 1, c.addr)
  {
    SpliceIndex(bs, i, i + 1, [b, c]);
  }

  /** The room for a header inside a block is apart from every header of the heap. */
  lemma RoomInside(v: View, start: int, end: int, sentinel: int, i: nat, n: int)
    requires Valid(v, start, end) && i < |v.blocks| - 1
    requires v.blocks[i].addr + HEADER <= n && n + HEADER <= v.blocks[i].End()
    requires Apart(sentinel, start, end + HEADER - start)
    ensures forall j :: 0 <= j < |v.blocks| ==> Apart(v.blocks[j].addr, n, HEADER)
    ensures start <= n && n + HEADER <= end && Apart(sentinel, n, HEADER) && n !in Addrs(v.blocks)
  {
    forall j | 0 <= j < |v.blocks|
      ensures Apart(v.blocks[j].addr, n, HEADER)
    {
      if j < i { Ordered(v.blocks, start, end, j, i); }
      if i < j { Ordered(v.blocks, start, end, i, j); }
    }
    if i > 0 { Ordered(v.blocks, start, end, 0, i); }
    Ordered(v.blocks, start, end, i, |v.blocks| - 1);
  }

  /** Rewriting the flag of block i's header is rewriting the block. */
  lemma FlagTagged(used: map<int, bool>, pool: map<int, int>, id: int, bs: seq<Block>, start: int, end: int, i: nat, u: bool)
    requires Tiled(bs, start, end) && Tagged(used, pool, id, bs) && i < |bs|
    ensures Tagged(used[bs[i].addr := u], pool, id, bs[i := bs[i].(used := u)])
  {
    forall j | 0 <= j < |bs| && j != i
      ensures bs[j].addr != bs[i].addr
    {
      if bs[j].addr == bs[i].addr { SameAddress(bs, start, end, i, j); }
    }
  }

  lemma DividedTags(m: Mem, id: int, sentinel: int, v: View, h: int, n: int, junk: seq<byte>)
    requires Tagged(m.used, m.pool, id, v.blocks) && |junk| == HEADER && 0 <= n && n + HEADER <= |m.ram|
    requires h in m.next && Apart(h, n, HEADER)
    requires forall j :: 0 <= j < |v.blocks| ==> Apart(v.blocks[j].addr, n, HEADER)
    ensures var m' := Divided(m, id, h, n, junk);
      Tagged(m'.used, m'.pool, id, v.blocks) && n in m'.used && !m'.used[n] && n in m'.pool && m'.pool[n] == id
  {
  }

  /** The state between dividing block i at n and settling the free list: the right part is flagged free. */
  lemma DividedHolds(m: Mem, id: int, sentinel: int, v: View, start: int, end: int, i: nat, n: int, junk: seq<byte>)
    requires Valid(v, start, end) && Placed(m, start, end, sentinel) && Holds(m, id, sentinel, v)
    requires i < |v.blocks| - 1 && |junk| == HEADER
    requires v.blocks[i].addr + HEADER <= n && n + HEADER <= v.blocks[i].End()
    ensures v.blocks[i].addr in m.next && Apart(v.blocks[i].addr, n, HEADER) && 0 <= n && n + HEADER <= |m.ram|
    ensures var m' := Divided(m, id, v.blocks[i].addr, n, junk);
      && Ring.IsRing(m'.next, m'.prev, InsertAt(Addrs(v.blocks), i + 1, n))
      && Ring.IsRing(m'.nextFree, m'.prevFree, [sentinel] + v.free)
      && Tagged(m'.used, m'.pool, id, v.blocks) && n in m'.used && !m'.used[n] && n in m'.pool && m'.pool[n] == id
  {
    var h, s := v.blocks[i].addr, Addrs(v.blocks);
    RoomInside(v, start, end, sentinel, i, n);
    OverwriteHolds(m, id, sentinel, v, n, junk);
    assert s[i] == h;
    LinkedRing(WithMagic(m, n, junk), s, i, n);
    DividedTags(m, id, sentinel, v, h, n, junk);
  }

  lemma Recast(bs: seq<Block>, i: nat, b: Block)
    requires i < |bs| && b.addr == bs[i].addr
    ensures Splice(bs, i, i + 1, [b]) == bs[i := b] && Addrs(bs[i := b]) == Addrs(bs)
  {
  }

  function AllocWhole(m: Mem, h: int): Mem
    requires h in m.nextFree && h in m.prevFree
  {
    var t := Taken(m, h);
    t.(used := t.used[h := true])
  }

  lemma AllocWholeHolds(m: Mem, id: int, sentinel: int, v: View, start: int, end: int, i: nat, want: nat)
    requires Valid(v, start, end) && Holds(m, id, sentinel, v)
    requires i < |v.blocks| - 1 && !v.blocks[i].used && !CanSplit(v.blocks[i].size, want)
    ensures v.blocks[i].addr in m.nextFree && v.blocks[i].addr in m.prevFree
    ensures Holds(AllocWhole(m, v.blocks[i].addr), id, sentinel, AllocAt(v, i, want))
  {
    var b := v.blocks[i];
    TakenRing(m, sentinel, v.free, b.addr);
    FlagTagged(m.used, m.pool, id, v.blocks, start, end, i, true);
    Recast(v.blocks, i, b.(used := true));
  }

  /** Tags of a block pair that replaces block i. */
  lemma PairTagged(used: map<int, bool>, pool: map<int, int>, id: int, bs: seq<Block>, i: nat, b: Block, c: Block)
    requires Tagged(used, pool, id, bs) && i < |bs| && b.addr == bs[i].addr
    requires b.addr in used && used[b.addr] == b.used
    requires c.addr in used && used[c.addr] == c.used && c.addr in pool && pool[c.addr] == id
    ensures Tagged(used, pool, id, Splice(bs, i, i + 1, [b, c]))
  {
    SpliceIndex(bs, i, i + 1, [b, c]);
  }

  lemma NotListed(v: View, start: int, end: int, n: int)
    requires Valid(v, start, end) && n !in Addrs(v.blocks)
    ensures n !in v.free && !HasBlock(v.blocks, n)
  {
    forall i | 0 <= i < |v.blocks|
      ensures v.blocks[i].addr != n
    {
      assert Addrs(v.blocks)[i] == v.blocks[i].addr;
    }
  }

  /** Tags after block i has become the pair mid whose first part is in use. */
  lemma SplitTagged(used: map<int, bool>, pool: map<int, int>, id: int, bs: seq<Block>, start: int, end: int,
                    i: nat, mid: seq<Block>)
    requires Tiled(bs, start, end) && Tagged(used, pool, id, bs) && i < |bs| && |mid| == 2
    requires mid[0].addr == bs[i].addr && mid[0].used && !mid[1].used && mid[1].addr != mid[0].addr
    requires mid[1].addr in used && !used[mid[1].addr] && mid[1].addr in pool && pool[mid[1].addr] == id
    ensures Tagged(used[bs[i].addr := true], pool, id, Splice(bs, i, i + 1, mid))
  {
    FlagTagged(used, pool, id, bs, start, end, i, true);
    var bs' := bs[i := bs[i].(used := true)];
    PairTagged(used[bs[i].addr := true], pool, id, bs', i, mid[0], mid[1]);
    assert Splice(bs', i, i + 1, [mid[0], mid[1]]) == Splice(bs, i, i + 1, mid);
  }

  lemma AllocSplitFreeRing(d: Mem, sentinel: int, v: View, start: int, end: int, f: int, n: int)
    requires Valid(v, start, end) && Ring.IsRing(d.nextFree, d.prevFree, [sentinel] + v.free)
    requires f in v.free && n !in v.free && n != sentinel
    ensures f in d.nextFree && f in d.prevFree && sentinel in Taken(d, f).nextFree
    ensures var m' := FreePushed(Taken(d, f), sentinel, n);
      Ring.IsRing(m'.nextFree, m'.prevFree, [sentinel] + ([n] + Without(v.free, f)))
  {
    TakenRing(d, sentinel, v.free, f);
    WithoutMembers(v.free, f);
    FreePushedRing(Taken(d, f), sentinel, Without(v.free, f), n);
  }

  // ---- freeing

  lemma Removed(s: seq<int>, i: nat, k: nat)
    requires i < |s| && k < |s| - 1
    ensures RemoveAt(s, i)[k] == s[if k < i then k else k + 1]
  {
  }

  lemma JoinedAddrsAt(v: View, i: nat)
    requires i < |v.blocks| - 1
    ensures var lo, hi, s, f := FreeLo(v, i), FreeHi(v, i), Addrs(v.blocks), Addrs(FreeAt(v, i).blocks);
      && |f| == |s| - (hi - lo) && forall k :: 0 <= k < |f| ==> f[k] == s[if k <= lo then k else k + (hi - lo)]
  {
    hide FreeAt;
    JoinedIndex(v, i);
  }

  /** Taking position i out of s if left, then the position behind it if right. */
  lemma RemovedTwice(s: seq<int>, i: nat, left: bool, right: bool, k: nat)
    requires i + 1 < |s| && (left ==> i > 0)
    requires k < |s| - (if left then 1 else 0) - (if right then 1 else 0)
    ensures var s', lo := if left then RemoveAt(s, i) else s, if left then i - 1 else i;
      var r := if right then RemoveAt(s', lo + 1) else s';
      && |r| == |s| - (if left then 1 else 0) - (if right then 1 else 0)
      && r[k] == s[if k <= lo then k else k + (if left then 1 else 0) + (if right then 1 else 0)]
  {
    hide RemoveAt;
    var s', lo := if left then RemoveAt(s, i) else s, if left then i - 1 else i;
    var k' := if right && k >= lo + 1 then k + 1 else k;
    if right { Removed(s', lo + 1, k); }
    if left { Removed(s, i, k'); }
  }

  lemma RemovedTwiceIs(s: seq<int>, i: nat, left: bool, right: bool, f: seq<int>)
    requires i + 1 < |s| && (left ==> i > 0)
    requires |f| == |s| - (if left then 1 else 0) - (if right then 1 else 0)
    requires forall k :: 0 <= k < |f| ==>
      f[k] == s[if k <= (if left then i - 1 else i) then k else k + (if left then 1 else 0) + (if right then 1 else 0)]
    ensures var s' := if left then RemoveAt(s, i) else s;
      f == if right then RemoveAt(s', (if left then i - 1 else i) + 1) else s'
  {
    hide RemoveAt;
    var s' := if left then RemoveAt(s, i) else s;
    var r := if right then RemoveAt(s', (if left then i - 1 else i) + 1) else s';
    forall k | 0 <= k < |f|
      ensures |r| == |f| && r[k] == f[k]
    {
      RemovedTwice(s, i, left, right, k);
    }
  }

  lemma StretchEnds(v: View, i: nat)
    requires i < |v.blocks| - 1
    ensures i - 1 <= FreeLo(v, i) <= i <= FreeHi(v, i) <= i + 1
    ensures (LeftFree(v, i) <==> FreeLo(v, i) < i) && (RightFree(v, i) <==> FreeHi(v, i) > i)
  {
  }

  /** The same, in terms of the stretch from lo to hi that is joined. */
  lemma JoinedTwice(s: seq<int>, f: seq<int>, i: nat, lo: nat, hi: nat)
    requires i + 1 < |s| && i - 1 <= lo <= i <= hi <= i + 1
    requires |f| == |s| - (hi - lo) && forall k :: 0 <= k < |f| ==> f[k] == s[if k <= lo then k else k + (hi - lo)]
    ensures var s' := if lo < i then RemoveAt(s, i) else s; f == if hi > i then RemoveAt(s', lo + 1) else s'
  {
    hide RemoveAt;
    RemovedTwiceIs(s, i, lo < i, hi > i, f);
  }

  lemma JoinedAddrs(v: View, i: nat)
    requires i < |v.blocks| - 1
    ensures var s := Addrs(v.blocks);
      var s' := if LeftFree(v, i) then RemoveAt(s, i) else s;
      Addrs(FreeAt(v, i).blocks) == if RightFree(v, i) then RemoveAt(s', FreeLo(v, i) + 1) else s'
    ensures FreeAt(v, i).free == if LeftFree(v, i) then WithoutRight(v, i) else [v.blocks[i].addr] + WithoutRight(v, i)
  {
    JoinedAddrsAt(v, i);
    JoinedFreeList(v, i);
    StretchEnds(v, i);
    hide FreeAt, RemoveAt, Addrs, WithoutRight, FreeLo, FreeHi, LeftFree, RightFree, Joined, Splice;
    JoinedTwice(Addrs(v.blocks), Addrs(FreeAt(v, i).blocks), i, FreeLo(v, i), FreeHi(v, i));
  }

  lemma JoinedFreeList(v: View, i: nat)
    requires i < |v.blocks| - 1
    ensures FreeAt(v, i).free == if LeftFree(v, i) then WithoutRight(v, i) else [v.blocks[i].addr] + WithoutRight(v, i)
    ensures |Addrs(v.blocks)| == |v.blocks|
  {
  }

  lemma FreeTagged(used: map<int, bool>, pool: map<int, int>, id: int, v: View, start: int, end: int, i: nat)
    requires Valid(v, start, end) && i < |v.blocks| - 1 && v.blocks[i].used && Tagged(used, pool, id, v.blocks)
    ensures Tagged(used[v.blocks[i].addr := false], pool, id, FreeAt(v, i).blocks)
  {
    hide Tiled, Merged, Listed, FreeAt;
    var lo, hi, w := FreeLo(v, i), FreeHi(v, i), FreeAt(v, i).blocks;
    FlagTagged(used, pool, id, v.blocks, start, end, i, false);
    JoinedIndex(v, i);
    var used' := used[v.blocks[i].addr := false];
    var bs := v.blocks[i := v.blocks[i].(used := false)];
    forall k | 0 <= k < |w|
      ensures w[k].addr in used' && used'[w[k].addr] == w[k].used && w[k].addr in pool && pool[w[k].addr] == id
    {
      var j := if k <= lo then k else k + (hi - lo);
      assert bs[j].addr == w[k].addr && bs[j].used == w[k].used;
    }
  }

  // ---- resizing in place

  lemma AbsorbedAddrs(v: View, i: nat)
    requires i + 1 < |v.blocks|
    ensures Addrs(AbsorbRight(v, i).blocks) == RemoveAt(Addrs(v.blocks), i + 1)
  {
    AbsorbIndex(v, i);
  }

  lemma AbsorbTagged(used: map<int, bool>, pool: map<int, int>, id: int, v: View, i: nat)
    requires i + 1 < |v.blocks| && Tagged(used, pool, id, v.blocks)
    ensures Tagged(used, pool, id, AbsorbRight(v, i).blocks)
  {
    var w := AbsorbRight(v, i).blocks;
    AbsorbIndex(v, i);
    forall k | 0 <= k < |w|
      ensures w[k].addr in used && used[w[k].addr] == w[k].used && w[k].addr in pool && pool[w[k].addr] == id
    {
      var j := if k <= i then k else k + 1;
      assert v.blocks[j].addr == w[k].addr && v.blocks[j].used == w[k].used;
    }
  }

  // ---- payload bytes

  ghost predicate SameBytes(ram: seq<byte>, ram': seq<byte>, a: int, n: int) {
    |ram| == |ram'| && forall k :: a <= k < a + n && 0 <= k < |ram| ==> ram'[k] == ram[k]
  }

  /** Every payload byte of every block in use survives. */
  ghost predicate KeepsPayload(ram: seq<byte>, ram': seq<byte>, bs: seq<Block>) {
    forall i :: 0 <= i < |bs| && bs[i].used ==> SameBytes(ram, ram', bs[i].addr + HEADER, bs[i].size)
  }

  /** Overwriting bytes inside one block leaves the payload of all others. */
  lemma OverwriteKeeps(m: Mem, m': Mem, v: View, start: int, end: int, i: nat, a: int, bytes: seq<byte>)
    requires Valid(v, start, end) && i < |v.blocks| - 1
    requires 0 <= a && a + |bytes| <= |m.ram| && m'.ram == Overwrite(m, a, bytes).ram
    requires v.blocks[i].addr <= a && a + |bytes| <= v.blocks[i].End()
    ensures forall j :: 0 <= j < |v.blocks| && j != i ==> SameBytes(m.ram, m'.ram, v.blocks[j].addr + HEADER, v.blocks[j].size)
  {
    forall j | 0 <= j < |v.blocks| && j != i
      ensures SameBytes(m.ram, m'.ram, v.blocks[j].addr + HEADER, v.blocks[j].size)
    {
      if j < i { Ordered(v.blocks, start, end, j, i); } else { Ordered(v.blocks, start, end, i, j); }
    }
  }

  /** Two linked headers make the initial heap. */
  /** The used tailer of length 0 laid at tail, linked to the first block in both directions. */
  function WithTailer(m: Mem, id: int, start: int, tail: int, junk: seq<byte>): Mem
    requires 0 <= tail && tail + |junk| <= |m.ram|
  {
    var p := WithMagic(m, tail, junk);
    p.(used := p.used[tail := true], pool := p.pool[tail := id],
       next := p.next[tail := start], prev := p.prev[tail := start],
       nextFree := p.nextFree[tail := NULL], prevFree := p.prevFree[tail := NULL])
  }

  lemma TailerFields(m: Mem, id: int, start: int, tail: int, junk: seq<byte>)
    requires 0 <= tail && tail + |junk| <= |m.ram|
    ensures var t := WithTailer(m, id, start, tail, junk);
      && tail in t.next && t.next[tail] == start && tail in t.prev && t.prev[tail] == start
      && tail in t.used && t.used[tail] && tail in t.pool && t.pool[tail] == id && |t.ram| == |m.ram|
  {
  }

  /** Headers away from the tailer stay as they are. */
  lemma TailerKeeps(m: Mem, id: int, start: int, tail: int, junk: seq<byte>, k: int)
    requires 0 <= tail && tail + |junk| <= |m.ram| && |junk| == HEADER && Apart(k, tail, HEADER)
    ensures var t := WithTailer(m, id, start, tail, junk);
      && (k in m.next ==> k in t.next && t.next[k] == m.next[k]) && (k in m.prev ==> k in t.prev && t.prev[k] == m.prev[k])
      && (k in m.nextFree ==> k in t.nextFree && t.nextFree[k] == m.nextFree[k])
      && (k in m.prevFree ==> k in t.prevFree && t.prevFree[k] == m.prevFree[k])
      && (k in m.used ==> k in t.used && t.used[k] == m.used[k]) && (k in m.pool ==> k in t.pool && t.pool[k] == m.pool[k])
  {
  }

  lemma InitialHolds(m: Mem, id: int, sentinel: int, start: int, pool: int)
    requires pool >= 2 * HEADER && Apart(sentinel, start, pool)
    requires var tail := start + pool - HEADER;
      && start in m.next && tail in m.next && start in m.prev && tail in m.prev
      && m.next[start] == tail == m.prev[start] && m.next[tail] == start == m.prev[tail]
      && start in m.used && tail in m.used && start in m.pool && tail in m.pool
      && !m.used[start] && m.used[tail] && m.pool[start] == id == m.pool[tail]
    requires start in m.nextFree && sentinel in m.nextFree && start in m.prevFree && sentinel in m.prevFree
    requires m.nextFree[start] == sentinel == m.prevFree[start] && m.nextFree[sentinel] == start == m.prevFree[sentinel]
    ensures Holds(m, id, sentinel, Initial(start, pool))
  {
    var v := Initial(start, pool);
    assert Addrs(v.blocks) == [start, start + pool - HEADER];
    assert [sentinel] + v.free == [sentinel, start];
  }

  // ---- reading links and sizes back

  lemma ReadsBlock(m: Mem, id: int, sentinel: int, v: View, start: int, end: int, i: nat)
    requires Valid(v, start, end) && Holds(m, id, sentinel, v) && i < |v.blocks| - 1
    ensures var h := v.blocks[i].addr;
      && h in m.next && m.next[h] == v.blocks[i + 1].addr && m.next[h] - h - HEADER == v.blocks[i].size
      && h in m.prev && m.prev[h] == (if i > 0 then v.blocks[i - 1].addr else end)
      && h in m.used && m.used[h] == v.blocks[i].used
  {
    var s, h := Addrs(v.blocks), v.blocks[i].addr;
    assert s[i] == h && v.blocks[i].End() == v.blocks[i + 1].addr;
    Ring.Link(m.next, m.prev, s, i);
  }

  lemma ReadsFree(m: Mem, sentinel: int, free: seq<int>, k: nat)
    requires Ring.IsRing(m.nextFree, m.prevFree, [sentinel] + free) && k <= |free|
    ensures var s := [sentinel] + free;
      s[k] in m.nextFree && s[k] in m.prevFree && m.nextFree[s[k]] == if k < |free| then free[k] else sentinel
    ensures sentinel !in free
  {
    var s := [sentinel] + free;
    Ring.Link(m.nextFree, m.prevFree, s, k);
    FreeIsDistinct(sentinel, free);
  }

  /** What the search sees at free-list position k. */
  lemma SearchStep(m: Mem, id: int, sentinel: int, v: View, start: int, end: int, k: nat)
    requires Valid(v, start, end) && Holds(m, id, sentinel, v) && k < |v.free|
    ensures var f := v.free[k];
      && f != sentinel && f in m.next && m.next[f] - f - HEADER == SizeAt(v, f)
      && f in m.nextFree && m.nextFree[f] == (if k + 1 < |v.free| then v.free[k + 1] else sentinel)
  {
    var i := FindListed(v, start, end, v.free[k]);
    ReadsBlock(m, id, sentinel, v, start, end, i);
    ReadsFree(m, sentinel, v.free, k + 1);
    assert ([sentinel] + v.free)[k + 1] == v.free[k];
  }

  // ---- what stays outside the pool

  /** A header address that belongs to the heap. */
  predicate Own(a: int, start: int, end: int, sentinel: int) {
    a == sentinel || start <= a <= end
  }

  lemma OwnBlock(v: View, start: int, end: int, i: nat)
    requires Valid(v, start, end) && i < |v.blocks|
    ensures start <= v.blocks[i].addr && v.blocks[i].addr <= end
    ensures i < |v.blocks| - 1 ==> v.blocks[i].End() <= end
  {
    if i > 0 { Ordered(v.blocks, start, end, 0, i); }
    if i < |v.blocks| - 1 { Ordered(v.blocks, start, end, i, |v.blocks| - 1); }
  }

  lemma OwnFree(m: Mem, sentinel: int, free: seq<int>, v: View, start: int, end: int, f: int)
    requires Valid(v, start, end) && (forall x :: x in free ==> x in v.free)
    requires Ring.IsRing(m.nextFree, m.prevFree, [sentinel] + free) && (f in free || f == sentinel)
    ensures f in m.nextFree && f in m.prevFree
    ensures Own(f, start, end, sentinel)
    ensures Own(m.nextFree[f], start, end, sentinel) && Own(m.prevFree[f], start, end, sentinel)
  {
    var s := [sentinel] + free;
    var k := if f == sentinel then 0 else IndexOf(free, f) + 1;
    assert s[k] == f;
    Ring.Link(m.nextFree, m.prevFree, s, k);
    forall x | x in s
      ensures Own(x, start, end, sentinel)
    {
      if x != sentinel {
        var i := FindListed(v, start, end, x);
        OwnBlock(v, start, end, i);
      }
    }
    assert Ring.After(s, k) in s && Ring.Before(s, k) in s;
  }

  lemma OutsideSame(m: Mem, start: int, end: int, s: int)
    ensures SameOutside(m, m, start, end + HEADER, s)
  {
  }

  lemma OutsideTrans(a: Mem, b: Mem, c: Mem, lo: int, hi: int, s: int)
    requires SameOutside(a, b, lo, hi, s) && SameOutside(b, c, lo, hi, s)
    ensures SameOutside(a, c, lo, hi, s)
  {
  }

  lemma DividedLinks(m: Mem, id: int, h: int, n: int, junk: seq<byte>)
    requires |junk| == HEADER && 0 <= n && n + HEADER <= |m.ram| && h in m.next && Apart(h, n, HEADER)
    ensures var d := Divided(m, id, h, n, junk);
      h in d.next && n in d.next && d.next[n] == m.next[h] && |d.ram| == |m.ram|
  {
  }

  lemma DividedOutside(m: Mem, id: int, h: int, n: int, junk: seq<byte>, start: int, end: int, s: int)
    requires |junk| == HEADER && 0 <= n && n + HEADER <= |m.ram| && h in m.next && Apart(h, n, HEADER)
    requires Own(h, start, end, s) && start <= n <= end && Own(m.next[h], start, end, s)
    ensures SameOutside(m, Divided(m, id, h, n, junk), start, end + HEADER, s)
  {
    var lo, hi, next := start, end + HEADER, m.next[h];
    NewOutside(m.next, n, lo, hi, s);
    NewOutside(m.prev, n, lo, hi, s);
    NewOutside(m.nextFree, n, lo, hi, s);
    NewOutside(m.prevFree, n, lo, hi, s);
    NewOutside(m.used, n, lo, hi, s);
    NewOutside(m.pool, n, lo, hi, s);
    hide SameHeaders, Outside, Overwrite, Apart;
    var o := Overwrite(m, n, junk);
    OverwriteFields(m, n, junk);
    SetOutside(m.next, o.next, n, next, lo, hi, s);
    SetOutside(m.next, o.next[n := next], h, n, lo, hi, s);
    SetOutside(m.prev, o.prev, n, h, lo, hi, s);
    SetOutside(m.prev, o.prev[n := h], next, n, lo, hi, s);
    SetOutside(m.used, o.used, n, false, lo, hi, s);
    SetOutside(m.pool, o.pool, n, id, lo, hi, s);
    OverwriteBytes(m, n, junk, lo, hi);
  }

  lemma NewOutside<T>(f: map<int, T>, n: int, lo: int, hi: int, s: int)
    requires lo <= n && n + HEADER <= hi
    ensures SameHeaders(f, Outside(f, n, HEADER), lo, hi, s)
  {
  }

  lemma SetOutside<T>(f: map<int, T>, g: map<int, T>, k: int, x: T, lo: int, hi: int, s: int)
    requires SameHeaders(f, g, lo, hi, s) && (k == s || !Apart(k, lo, hi - lo))
    ensures SameHeaders(f, g[k := x], lo, hi, s)
  {
  }

  lemma OverwriteFields(m: Mem, a: int, bytes: seq<byte>)
    requires 0 <= a && a + |bytes| <= |m.ram|
    ensures var o, n := Overwrite(m, a, bytes), |bytes|;
      && o.next == Outside(m.next, a, n) && o.prev == Outside(m.prev, a, n)
      && o.nextFree == Outside(m.nextFree, a, n) && o.prevFree == Outside(m.prevFree, a, n)
      && o.used == Outside(m.used, a, n) && o.pool == Outside(m.pool, a, n)
  {
  }

  lemma OverwriteBytes(m: Mem, a: int, bytes: seq<byte>, lo: int, hi: int)
    requires 0 <= a && a + |bytes| <= |m.ram| && lo <= a && a + |bytes| <= hi
    ensures var o := Overwrite(m, a, bytes);
      |o.ram| == |m.ram| && forall k :: 0 <= k < |m.ram| && !(lo <= k < hi) ==> o.ram[k] == m.ram[k]
  {
  }

  lemma TakenOutside(m: Mem, f: int, start: int, end: int, s: int)
    requires f in m.nextFree && f in m.prevFree
    requires Own(f, start, end, s) && Own(m.nextFree[f], start, end, s) && Own(m.prevFree[f], start, end, s)
    ensures SameOutside(m, FreeUnlinked(m, f), start, end + HEADER, s)
    ensures SameOutside(m, Taken(m, f), start, end + HEADER, s)
  {
  }

  lemma PushedOutside(m: Mem, s: int, f: int, start: int, end: int)
    requires s in m.nextFree && Own(f, start, end, s) && Own(m.nextFree[s], start, end, s)
    ensures SameOutside(m, FreePushed(m, s, f), start, end + HEADER, s)
  {
  }

  lemma UnlinkedOutside(m: Mem, f: int, start: int, end: int, s: int)
    requires f in m.next && f in m.prev
    requires Own(f, start, end, s) && Own(m.next[f], start, end, s) && Own(m.prev[f], start, end, s)
    ensures SameOutside(m, Unlinked(m, f), start, end + HEADER, s)
  {
  }

  lemma FlagOutside(m: Mem, h: int, u: bool, start: int, end: int, s: int)
    requires Own(h, start, end, s)
    ensures SameOutside(m, m.(used := m.used[h := u]), start, end + HEADER, s)
  {
  }

  lemma ListedHere(v: View, start: int, end: int, i: nat, n: int)
    requires Valid(v, start, end) && i < |v.blocks| - 1 && !v.blocks[i].used && n !in Addrs(v.blocks)
    ensures v.blocks[i].addr in v.free && n !in v.free
    ensures forall x :: x in Without(v.free, v.blocks[i].addr) ==> x in v.free
  {
    NotListed(v, start, end, n);
    WithoutMembers(v.free, v.blocks[i].addr);
  }

  lemma SplitSettled(used: map<int, bool>, pool: map<int, int>, id: int, v: View, start: int, end: int, i: nat, want: nat)
    requires Valid(v, start, end) && i < |v.blocks| - 1 && CanSplit(v.blocks[i].size, want)
    requires Tagged(used, pool, id, v.blocks)
    requires var n := v.blocks[i].addr + HEADER + want; n in used && !used[n] && n in pool && pool[n] == id
    ensures Tagged(used[v.blocks[i].addr := true], pool, id, AllocAt(v, i, want).blocks)
    ensures Addrs(AllocAt(v, i, want).blocks) == InsertAt(Addrs(v.blocks), i + 1, v.blocks[i].addr + HEADER + want)
  {
    var mid := Carve(v.blocks[i], want);
    SplitTagged(used, pool, id, v.blocks, start, end, i, mid);
    AddrsSplit(v.blocks, i, mid[0], mid[1]);
  }

  /** Whatever happens inside a free block, nobody's payload changes. */
  lemma KeepsFreeBlock(ram: seq<byte>, ram': seq<byte>, bs: seq<Block>, i: nat, n: int)
    requires i < |bs| && !bs[i].used && KeepsOthers(ram, ram', bs, i, n)
    ensures KeepsPayload(ram, ram', bs)
  {
  }

  lemma TaggedHas(used: map<int, bool>, pool: map<int, int>, id: int, bs: seq<Block>, i: nat)
    requires Tagged(used, pool, id, bs) && i < |bs|
    ensures bs[i].addr in used
  {
  }

  lemma AllocSplitFree(v: View, i: nat, want: nat)
    requires i < |v.blocks| && CanSplit(v.blocks[i].size, want)
    ensures AllocAt(v, i, want).free == [v.blocks[i].addr + HEADER + want] + Without(v.free, v.blocks[i].addr)
  {
  }

  // ---- the steps of rt_memheap_free, on block i at header h

  /** What rt_memheap_free reads once the USED bit of block i is off. */
  lemma FreeReads(m: Mem, id: int, sentinel: int, v: View, start: int, end: int, i: nat)
    requires Valid(v, start, end) && Holds(m, id, sentinel, v) && i < |v.blocks| - 1 && v.blocks[i].used
    ensures var h := v.blocks[i].addr; var used := m.used[h := false];
      && h in m.next && h in m.prev && h in m.used && m.prev[h] in used && m.next[h] in used
      && (used[m.prev[h]] <==> !LeftFree(v, i)) && (used[m.next[h]] <==> !RightFree(v, i))
      && m.next[h] == v.blocks[i + 1].addr && m.next[h] - h - HEADER == v.blocks[i].size
      && (LeftFree(v, i) ==> m.prev[h] == v.blocks[i - 1].addr)
      && start <= m.next[h] <= end && start <= m.prev[h] <= end && start <= h <= end
  {
    var h := v.blocks[i].addr;
    ReadsBlock(m, id, sentinel, v, start, end, i);
    OwnBlock(v, start, end, i);
    OwnBlock(v, start, end, i + 1);
    Ordered(v.blocks, start, end, i, i + 1);
    if i > 0 {
      Ordered(v.blocks, start, end, i - 1, i);
      OwnBlock(v, start, end, i - 1);
    } else {
      Ordered(v.blocks, start, end, i, |v.blocks| - 1);
    }
  }

  lemma MergeLeftRing(m: Mem, s: seq<int>, i: nat)
    requires Ring.IsRing(m.next, m.prev, s) && 0 < i < |s| - 1
    ensures s[i] in m.next && s[i] in m.prev
    ensures var m' := Unlinked(m, s[i]);
      && Ring.IsRing(m'.next, m'.prev, RemoveAt(s, i))
      && s[i - 1] in m'.next && m'.next[s[i - 1]] == s[i + 1]
  {
    UnlinkedRing(m, s, i);
    var m' := Unlinked(m, s[i]);
    Ring.Link(m'.next, m'.prev, RemoveAt(s, i), i - 1);
    assert RemoveAt(s, i)[i - 1] == s[i - 1];
  }

  lemma RingNeighbours(m: Mem, s: seq<int>, k: nat, lo: int, hi: int)
    requires Ring.IsRing(m.next, m.prev, s) && k < |s| && forall x :: x in s ==> lo <= x <= hi
    ensures s[k] in m.next && s[k] in m.prev && lo <= s[k] <= hi
    ensures lo <= m.next[s[k]] <= hi && lo <= m.prev[s[k]] <= hi
  {
    Ring.Link(m.next, m.prev, s, k);
    assert Ring.After(s, k) in s && Ring.Before(s, k) in s && s[k] in s;
  }

  lemma OwnAddrs(v: View, start: int, end: int)
    requires Valid(v, start, end)
    ensures forall x :: x in Addrs(v.blocks) ==> start <= x <= end
  {
    forall i | 0 <= i < |v.blocks|
      ensures start <= v.blocks[i].addr <= end
    {
      OwnBlock(v, start, end, i);
    }
  }

  /** The block ring after a possible left merge of block i. */
  ghost function LeftMerged(v: View, i: nat): seq<int>
    requires i < |v.blocks|
  {
    if LeftFree(v, i) then RemoveAt(Addrs(v.blocks), i) else Addrs(v.blocks)
  }

  lemma RightNode(v: View, start: int, end: int, i: nat)
    requires Valid(v, start, end) && i < |v.blocks| - 1 && v.blocks[i].used
    ensures var s' := LeftMerged(v, i);
      && |s'| >= 2 && FreeLo(v, i) + 1 < |s'| && s'[FreeLo(v, i) + 1] == v.blocks[i + 1].addr
      && forall x :: x in s' ==> start <= x <= end
    ensures RightFree(v, i) ==> v.blocks[i + 1].addr in v.free
  {
    OwnAddrs(v, start, end);
    var s := Addrs(v.blocks);
    var s' := LeftMerged(v, i);
    forall x | x in s'
      ensures x in s
    {
    }
    assert s[i + 1] == v.blocks[i + 1].addr;
  }

  /** What a free has written is the heap with the freed block joined to its free neighbours. */
  lemma FreedHolds(m: Mem, id: int, sentinel: int, v: View, i: nat)
    requires i < |v.blocks| - 1 && FreeLo(v, i) + 1 < |LeftMerged(v, i)|
    requires Ring.IsRing(m.next, m.prev, if RightFree(v, i) then RemoveAt(LeftMerged(v, i), FreeLo(v, i) + 1) else LeftMerged(v, i))
    requires Ring.IsRing(m.nextFree, m.prevFree, [sentinel] + if LeftFree(v, i) then WithoutRight(v, i) else [v.blocks[i].addr] + WithoutRight(v, i))
    requires Tagged(m.used, m.pool, id, FreeAt(v, i).blocks)
    ensures Holds(m, id, sentinel, FreeAt(v, i))
  {
    JoinedAddrs(v, i);
    hide Ring.IsRing, Tagged, FreeAt, Addrs, RemoveAt, WithoutRight, FreeLo, LeftFree, RightFree, Joined, Splice;
  }

  lemma LeftMergedSize(v: View, i: nat)
    requires i < |v.blocks| - 1
    ensures FreeLo(v, i) + 1 < |LeftMerged(v, i)|
  {
  }

  /** Taking the free right neighbour of block i out of the block ring. */
  lemma RightUnlinked(m: Mem, sentinel: int, v: View, start: int, end: int, i: nat)
    requires Valid(v, start, end) && i < |v.blocks| - 1 && v.blocks[i].used
    requires Ring.IsRing(m.next, m.prev, LeftMerged(v, i))
    ensures v.blocks[i + 1].addr in m.next && v.blocks[i + 1].addr in m.prev && FreeLo(v, i) + 1 < |LeftMerged(v, i)|
    ensures var m' := Unlinked(m, v.blocks[i + 1].addr);
      && Ring.IsRing(m'.next, m'.prev, RemoveAt(LeftMerged(v, i), FreeLo(v, i) + 1))
      && SameOutside(m, m', start, end + HEADER, sentinel)
  {
    hide Ring.IsRing, Valid, LeftMerged, RemoveAt, SameOutside, Unlinked;
    RightNode(v, start, end, i);
    RingNeighbours(m, LeftMerged(v, i), FreeLo(v, i) + 1, start, end);
    UnlinkedRing(m, LeftMerged(v, i), FreeLo(v, i) + 1);
    UnlinkedOutside(m, v.blocks[i + 1].addr, start, end, sentinel);
  }

  /** And out of the free ring. */
  lemma RightDetached(m: Mem, sentinel: int, v: View, start: int, end: int, i: nat)
    requires Valid(v, start, end) && i < |v.blocks| - 1 && v.blocks[i].used && RightFree(v, i)
    requires Ring.IsRing(m.nextFree, m.prevFree, [sentinel] + v.free)
    ensures v.blocks[i + 1].addr in m.nextFree && v.blocks[i + 1].addr in m.prevFree
    ensures var m' := FreeUnlinked(m, v.blocks[i + 1].addr);
      && Ring.IsRing(m'.nextFree, m'.prevFree, [sentinel] + WithoutRight(v, i))
      && SameOutside(m, m', start, end + HEADER, sentinel)
  {
    hide Ring.IsRing, Valid, SameOutside, FreeUnlinked, Without;
    var n := v.blocks[i + 1].addr;
    RightNode(v, start, end, i);
    OwnFree(m, sentinel, v.free, v, start, end, n);
    FreeUnlinkedRing(m, sentinel, v.free, n);
    TakenOutside(m, n, start, end, sentinel);
  }

  // ---- resizing: rings and tags

  /** Element k after n has been put behind position i and what follows it has been taken out if right. */
  function InsertedAt(s: seq<int>, i: nat, n: int, right: bool, k: nat): int
    requires i + 1 < |s| && k < |s| + 1 - (if right then 1 else 0)
  {
    if k <= i then s[k] else if k == i + 1 then n else s[k - 1 + (if right then 1 else 0)]
  }

  lemma InsertedRemoved(s: seq<int>, i: nat, n: int, right: bool, f: seq<int>)
    requires i + 1 < |s| && |f| == |s| + 1 - (if right then 1 else 0)
    requires forall k :: 0 <= k < |f| ==> f[k] == InsertedAt(s, i, n, right, k)
    ensures f == if right then RemoveAt(InsertAt(s, i + 1, n), i + 2) else InsertAt(s, i + 1, n)
  {
    var r := if right then RemoveAt(InsertAt(s, i + 1, n), i + 2) else InsertAt(s, i + 1, n);
    forall k | 0 <= k < |f|
      ensures |r| == |f| && r[k] == f[k]
    {
      if right { Removed(InsertAt(s, i + 1, n), i + 2, k); }
    }
  }

  lemma ResizedAddrsAt(v: View, i: nat, want: int)
    requires i < |v.blocks| - 1
    ensures var s, f := Addrs(v.blocks), Addrs(ResizeAt(v, i, want).blocks);
      && |s| == |v.blocks| && |f| == |s| + 1 - (if RightFree(v, i) then 1 else 0)
      && forall k :: 0 <= k < |f| ==> f[k] == InsertedAt(s, i, v.blocks[i].addr + HEADER + want, RightFree(v, i), k)
    ensures ResizeAt(v, i, want).free == [v.blocks[i].addr + HEADER + want] + WithoutRight(v, i)
  {
    ResizedIndex(v, i, want);
    assert ResizeAt(v, i, want).free == [v.blocks[i].addr + HEADER + want] + WithoutRight(v, i);
    hide ResizeAt, WithoutRight;
  }

  lemma ResizedAddrs(v: View, i: nat, want: int)
    requires i < |v.blocks| - 1
    ensures var s := InsertAt(Addrs(v.blocks), i + 1, v.blocks[i].addr + HEADER + want);
      Addrs(ResizeAt(v, i, want).blocks) == if RightFree(v, i) then RemoveAt(s, i + 2) else s
    ensures ResizeAt(v, i, want).free == [v.blocks[i].addr + HEADER + want] + WithoutRight(v, i)
  {
    hide ResizeAt, RemoveAt, InsertAt, WithoutRight, Addrs, InsertedAt;
    ResizedAddrsAt(v, i, want);
    InsertedRemoved(Addrs(v.blocks), i, v.blocks[i].addr + HEADER + want, RightFree(v, i), Addrs(ResizeAt(v, i, want).blocks));
  }

  lemma ResizedTagged(used: map<int, bool>, pool: map<int, int>, id: int, v: View, start: int, end: int, i: nat, want: int)
    requires Valid(v, start, end) && i < |v.blocks| - 1 && v.blocks[i].used && Tagged(used, pool, id, v.blocks)
    requires var n := v.blocks[i].addr + HEADER + want; n in used && !used[n] && n in pool && pool[n] == id
    ensures Tagged(used, pool, id, ResizeAt(v, i, want).blocks)
  {
    hide HeapSpec.Valid, ResizeAt;
    var w, d := ResizeAt(v, i, want).blocks, FreeHi(v, i) - i;
    ResizedIndex(v, i, want);
    forall k | 0 <= k < |w|
      ensures w[k].addr in used && used[w[k].addr] == w[k].used && w[k].addr in pool && pool[w[k].addr] == id
    {
      if k <= i {
        assert w[k].addr == v.blocks[k].addr && w[k].used == v.blocks[k].used;
      } else if k > i + 1 {
        assert w[k] == v.blocks[k - 1 + d];
      }
    }
  }

  /** Bytes of block i below the new header survive, and so does every other block. */
  ghost predicate KeepsOthers(ram: seq<byte>, ram': seq<byte>, bs: seq<Block>, i: nat, n: int)
    requires i < |bs|
  {
    && (forall j :: 0 <= j < |bs| && j != i && bs[j].used ==> SameBytes(ram, ram', bs[j].addr + HEADER, bs[j].size))
    && SameBytes(ram, ram', bs[i].addr + HEADER, n)
  }

  lemma DividedKeepsOthers(m: Mem, id: int, v: View, start: int, end: int, i: nat, want: nat, junk: seq<byte>)
    requires Valid(v, start, end) && i < |v.blocks| - 1 && |junk| == HEADER && v.blocks[i].addr in m.next
    requires var n := v.blocks[i].addr + HEADER + want;
      && n + HEADER <= v.blocks[i].End() && 0 <= n && n + HEADER <= |m.ram|
    ensures KeepsOthers(m.ram, Divided(m, id, v.blocks[i].addr, v.blocks[i].addr + HEADER + want, junk).ram, v.blocks, i, want)
  {
    var h, n := v.blocks[i].addr, v.blocks[i].addr + HEADER + want;
    DividedRam(m, id, h, n, junk);
    var m' := Divided(m, id, h, n, junk);
    hide Divided, Overwrite;
    OverwriteKeeps(m, m', v, start, end, i, n, junk);
    hide HeapSpec.Valid, SameBytes;
  }

  lemma DividedRam(m: Mem, id: int, h: int, n: int, junk: seq<byte>)
    requires 0 <= n && n + |junk| <= |m.ram| && h in m.next && Apart(h, n, |junk|)
    ensures Divided(m, id, h, n, junk).ram == Overwrite(m, n, junk).ram
  {
  }

  lemma AbsorbKeepsOthers(ram: seq<byte>, ram': seq<byte>, v: View, i: nat, n: int)
    requires i + 1 < |v.blocks| && !v.blocks[i + 1].used && KeepsOthers(ram, ram', AbsorbRight(v, i).blocks, i, n)
    ensures KeepsOthers(ram, ram', v.blocks, i, n)
  {
    AbsorbIndex(v, i);
    var w := AbsorbRight(v, i).blocks;
    forall j | 0 <= j < |v.blocks| && j != i && v.blocks[j].used
      ensures SameBytes(ram, ram', v.blocks[j].addr + HEADER, v.blocks[j].size)
    {
      assert w[if j < i then j else j - 1] == v.blocks[j];
    }
  }

  lemma RightListed(v: View, start: int, end: int, i: nat)
    requires Valid(v, start, end) && i < |v.blocks| - 1 && RightFree(v, i)
    ensures v.blocks[i + 1].addr in v.free
    ensures i + 1 < |Addrs(v.blocks)| && Addrs(v.blocks)[i + 1] == v.blocks[i + 1].addr
    ensures forall x :: x in Addrs(v.blocks) ==> start <= x <= end
  {
    OwnAddrs(v, start, end);
  }

  lemma KeepsFewer(ram: seq<byte>, ram': seq<byte>, bs: seq<Block>, i: nat, n: int, k: int)
    requires i < |bs| && k <= n && KeepsOthers(ram, ram', bs, i, n)
    ensures KeepsOthers(ram, ram', bs, i, k)
  {
  }

  /** What the shrinking path reads behind the freshly cut tail n of block i. */
  lemma TailNode(m: Mem, v: View, start: int, end: int, i: nat, n: int)
    requires Valid(v, start, end) && i < |v.blocks| - 1 && v.blocks[i].used && start <= n <= end
    requires Ring.IsRing(m.next, m.prev, InsertAt(Addrs(v.blocks), i + 1, n))
    requires v.blocks[i + 1].addr in m.used && m.used[v.blocks[i + 1].addr] == v.blocks[i + 1].used
    ensures var s, x := InsertAt(Addrs(v.blocks), i + 1, n), v.blocks[i + 1].addr;
      && i + 2 < |s| && s[i + 1] == n && s[i + 2] == x && (forall y :: y in s ==> start <= y <= end)
      && x in m.next && (RightFree(v, i) ==> m.next[x] == v.blocks[i + 1].End() && m.next[x] - x - HEADER == v.blocks[i + 1].size)
      && x in m.prev && m.prev[x] == n && x != n
      && (m.used[x] <==> !RightFree(v, i))
    ensures v.blocks[i].End() == v.blocks[i + 1].addr
  {
    var s := InsertAt(Addrs(v.blocks), i + 1, n);
    OwnAddrs(v, start, end);
    InsertMembers(Addrs(v.blocks), i + 1, n);
    FreeNeighbours(v, start, end, i);
    Ring.Link(m.next, m.prev, s, i + 2);
    assert Addrs(v.blocks)[i + 1] == s[i + 2];
    assert v.blocks[i].End() == v.blocks[i + 1].addr;
    if RightFree(v, i) {
      assert v.blocks[i + 1].End() == v.blocks[i + 2].addr;
      assert s[i + 3] == Addrs(v.blocks)[i + 2];
    }
    assert s[i + 1] != s[i + 2];
  }

  // ---- moving a block

  /** The n bytes at `to` are now what the n bytes at `from` were. */
  ghost predicate Carried(ram: seq<byte>, ram': seq<byte>, from: int, to: int, n: int) {
    && 0 <= from && 0 <= to && 0 <= n && from + n <= |ram| && to + n <= |ram'|
    && ram'[to..to + n] == ram[from..from + n]
  }

  /** Bytes inside the payload of one block are apart from every header. */
  lemma PayloadApart(v: View, start: int, end: int, sentinel: int, c: nat, a: int, n: nat)
    requires Valid(v, start, end) && c < |v.blocks| - 1 && Apart(sentinel, start, end + HEADER - start)
    requires v.blocks[c].addr + HEADER <= a && a + n <= v.blocks[c].End()
    ensures forall j :: 0 <= j < |v.blocks| ==> Apart(v.blocks[j].addr, a, n)
    ensures start <= a && a + n <= end && Apart(sentinel, a, n)
  {
    OwnBlock(v, start, end, c);
    forall j | 0 <= j < |v.blocks|
      ensures Apart(v.blocks[j].addr, a, n)
    {
      if j < c { Ordered(v.blocks, start, end, j, c); }
      if c < j { Ordered(v.blocks, start, end, c, j); }
    }
  }

  lemma OverwriteOutside(m: Mem, a: int, bytes: seq<byte>, start: int, end: int, s: int)
    requires 0 <= a && a + |bytes| <= |m.ram| && start <= a && a + |bytes| <= end
    ensures SameOutside(m, Overwrite(m, a, bytes), start, end + HEADER, s)
  {
    var m' := Overwrite(m, a, bytes);
    forall k | 0 <= k < |m.ram| && !(start <= k < end + HEADER)
      ensures m.ram[k] == m'.ram[k]
    {
    }
  }

  /** Filling a freshly allocated block leaves the heap in place. */
  lemma FillHolds(a: Mem, id: int, sentinel: int, was: View, start: int, end: int, want: nat, r: int, bytes: seq<byte>)
    requires Valid(was, start, end) && Valid(Alloc(was, want), start, end) && !Refuses(was, want)
    requires Placed(a, start, end, sentinel) && Holds(a, id, sentinel, Alloc(was, want))
    requires r == was.blocks[Chosen(was, want)].addr + HEADER && |bytes| <= want
    ensures 0 <= r && r + |bytes| <= |a.ram|
    ensures var b := Overwrite(a, r, bytes);
      Holds(b, id, sentinel, Alloc(was, want)) && SameOutside(a, b, start, end + HEADER, sentinel)
  {
    var c, w := Chosen(was, want), Alloc(was, want);
    ChosenFits(was, start, end, want);
    AllocIndex(was, c, want);
    PayloadApart(w, start, end, sentinel, c, r, |bytes|);
    OverwriteHolds(a, id, sentinel, w, r, bytes);
    OverwriteOutside(a, r, bytes, start, end, sentinel);
  }

  /** Copying the old payload into the new block leaves the heap in place. */
  lemma CopyStays(a: Mem, id: int, sentinel: int, was: View, w: View, start: int, end: int, i: nat, want: nat, ptr: int, r: int, n: nat)
    requires Valid(was, start, end) && Valid(w, start, end) && Placed(a, start, end, sentinel) && Holds(a, id, sentinel, w)
    requires InUse(was, i, ptr) && n == was.blocks[i].size && n < want && !Refuses(was, want) && w == Alloc(was, want)
    requires r == was.blocks[Chosen(was, want)].addr + HEADER
    ensures 0 <= ptr && ptr + n <= |a.ram| && 0 <= r && r + n <= |a.ram|
    ensures var b := Overwrite(a, r, a.ram[ptr..ptr + n]);
      Holds(b, id, sentinel, w) && SameOutside(a, b, start, end + HEADER, sentinel)
  {
    OwnBlock(was, start, end, i);
    FillHolds(a, id, sentinel, was, start, end, want, r, a.ram[ptr..ptr + n]);
  }

  lemma CopyKeeps(a: Mem, b: Mem, was: View, start: int, end: int, want: nat, j: nat, r: int, bytes: seq<byte>)
    requires Valid(was, start, end) && Valid(Alloc(was, want), start, end) && !Refuses(was, want)
    requires j < |was.blocks| && was.blocks[j].used && |bytes| <= want
    requires r == was.blocks[Chosen(was, want)].addr + HEADER && 0 <= r && r + |bytes| <= |a.ram|
    requires b == Overwrite(a, r, bytes)
    ensures SameBytes(a.ram, b.ram, was.blocks[j].addr + HEADER, was.blocks[j].size)
  {
    hide Tiled, Merged, Alloc, Overwrite, MovedIndex;
    if j < |was.blocks| - 1 {
      AllocKeepsBlock(was, start, end, j, want);
      OverwriteKeeps(a, b, Alloc(was, want), start, end, Chosen(was, want), r, bytes);
    } else {
      TailerEmpty(was, start, end);
      assert |a.ram| == |b.ram| by { OverwriteLength(a, r, bytes); }
    }
  }

  lemma TailerEmpty(v: View, start: int, end: int)
    requires Valid(v, start, end)
    ensures v.blocks[|v.blocks| - 1].size == 0
  {
  }

  lemma OverwriteLength(m: Mem, a: int, bytes: seq<byte>)
    requires 0 <= a && a + |bytes| <= |m.ram|
    ensures |Overwrite(m, a, bytes).ram| == |m.ram|
  {
  }

  lemma CopyCarries(m: Mem, a: Mem, b: Mem, was: View, start: int, end: int, i: nat, want: nat, ptr: int, r: int, n: nat)
    requires Valid(was, start, end) && Valid(Alloc(was, want), start, end) && !Refuses(was, want)
    requires InUse(was, i, ptr) && n == was.blocks[i].size && n < want
    requires r == was.blocks[Chosen(was, want)].addr + HEADER
    requires 0 <= ptr && ptr + n <= |a.ram| && 0 <= r && r + n <= |a.ram|
    requires KeepsPayload(m.ram, a.ram, was.blocks) && b == Overwrite(a, r, a.ram[ptr..ptr + n])
    ensures Carried(m.ram, b.ram, ptr, r, n)
    ensures KeepsOthers(m.ram, b.ram, was.blocks, i, 0)
  {
    var bytes := a.ram[ptr..ptr + n];
    assert SameBytes(m.ram, a.ram, ptr, n);
    assert bytes == m.ram[ptr..ptr + n];
    assert b.ram[r..r + n] == bytes;
    forall j | 0 <= j < |was.blocks| && j != i && was.blocks[j].used
      ensures SameBytes(m.ram, b.ram, was.blocks[j].addr + HEADER, was.blocks[j].size)
    {
      CopyKeeps(a, b, was, start, end, want, j, r, bytes);
      assert SameBytes(m.ram, a.ram, was.blocks[j].addr + HEADER, was.blocks[j].size);
    }
  }

  lemma PayloadKeeps(ram: seq<byte>, ram': seq<byte>, bs: seq<Block>, i: nat)
    requires i < |bs| && bs[i].used && KeepsPayload(ram, ram', bs)
    ensures KeepsOthers(ram, ram', bs, i, 0)
  {
    assert SameBytes(ram, ram', bs[i].addr + HEADER, bs[i].size);
  }

  lemma KeepsInPlace(ram: seq<byte>, ram': seq<byte>, bs: seq<Block>, i: nat, n: nat)
    requires i < |bs| && KeepsOthers(ram, ram', bs, i, n)
    requires 0 <= bs[i].addr && bs[i].addr + HEADER + n <= |ram|
    ensures Carried(ram, ram', bs[i].addr + HEADER, bs[i].addr + HEADER, n)
    ensures KeepsOthers(ram, ram', bs, i, 0)
  {
  }

  lemma StaysPut(ram: seq<byte>, bs: seq<Block>, i: nat, n: nat)
    requires i < |bs| && 0 <= bs[i].addr && bs[i].addr + HEADER + n <= |ram|
    ensures Carried(ram, ram, bs[i].addr + HEADER, bs[i].addr + HEADER, n)
    ensures KeepsOthers(ram, ram, bs, i, 0)
  {
  }

  /** Reading the header behind block i. */
  lemma ReadsRight(m: Mem, id: int, sentinel: int, v: View, start: int, end: int, i: nat)
    requires Valid(v, start, end) && Holds(m, id, sentinel, v) && Placed(m, start, end, sentinel) && i < |v.blocks| - 1 && v.blocks[i].used
    ensures var x := v.blocks[i + 1].addr;
      && x in m.used && (m.used[x] <==> !RightFree(v, i)) && x in m.next
      && (RightFree(v, i) ==> m.next[x] - x - HEADER == v.blocks[i + 1].size)
    ensures 0 <= v.blocks[i].addr && v.blocks[i].End() <= |m.ram| && v.blocks[i].size >= 0
  {
    FreeNeighbours(v, start, end, i);
    OwnBlock(v, start, end, i);
    Ring.Link(m.next, m.prev, Addrs(v.blocks), i + 1);
    if RightFree(v, i) { ReadsBlock(m, id, sentinel, v, start, end, i + 1); }
  }
}
