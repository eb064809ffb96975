// What the memheap allocator does to its partition of the pool, without links or
// memory: a sequence of blocks in address order and the order of the free list.
module HeapSpec {
  import opened Seqs
  import opened Words

  const HEADER := 24     // RT_MEMHEAP_SIZE: six 32-bit fields
  const MINIALLOC := 12

  /** The payload size that a request for n bytes is rounded to; the topmost requests wrap around to the least size. */
  function Rounded(n: nat): nat {
    if AlignUp(n) < MINIALLOC then MINIALLOC else AlignUp(n)
  }

  lemma RoundedTwice(n: nat)
    ensures Rounded(Rounded(n)) == Rounded(n)
    ensures MINIALLOC <= Rounded(n) <= SPAN - WORD && Rounded(n) % WORD == 0
    ensures n <= SPAN - WORD ==> n <= Rounded(n)
    ensures SPAN - WORD < n < SPAN ==> Rounded(n) == MINIALLOC
  {
  }

  // size counts payload bytes only; the header lies in front of them
  datatype Block = Block(addr: int, size: int, used: bool) {
    function End(): int { addr + HEADER + size }
  }

  datatype View = View(blocks: seq<Block>, free: seq<int>)

  /** The blocks cover [start, end + HEADER) without gap or overlap; the last one is the used tailer of length 0. */
  ghost predicate Tiled(bs: seq<Block>, start: int, end: int) {
    && |bs| >= 2
    && bs[0].addr == start
    && bs[|bs| - 1] == Block(end, 0, true)
    && (forall i :: 0 <= i < |bs| ==> bs[i].size >= 0)
    && (forall i {:trigger bs[i].End()} :: 0 <= i < |bs| - 1 ==> bs[i].End() == bs[i + 1].addr)
  }

  /** No two neighbouring blocks are both free. */
  ghost predicate Merged(bs: seq<Block>) {
    forall i, j :: 0 <= i && j == i + 1 && j < |bs| ==> bs[i].used || bs[j].used
  }

  /** The free list names every free block once, and nothing else. */
  ghost predicate Listed(bs: seq<Block>, free: seq<int>) {
    && Distinct(free)
    && (forall i :: 0 <= i < |bs| ==> (bs[i].used <==> bs[i].addr !in free))
    && Named(bs, free)
  }

  ghost predicate Named(bs: seq<Block>, free: seq<int>) {
    forall f :: f in free ==> HasBlock(bs, f)
  }

  ghost predicate HasBlock(bs: seq<Block>, a: int) {
    exists i :: 0 <= i < |bs| && bs[i].addr == a
  }

  ghost predicate Valid(v: View, start: int, end: int) {
    Tiled(v.blocks, start, end) && Merged(v.blocks) && Listed(v.blocks, v.free)
  }

  /** available_size as rt_memheap_init computes it, in 32 bits. */
  function InitialFree(pool: int): nat {
    (pool - 2 * HEADER) % SPAN
  }

  /** Where rt_memheap_init puts the tailer. */
  function TailerAt(start: int, pool: int): nat {
    (start + InitialFree(pool) + HEADER) % SPAN
  }

  /** The partition of a pool that has just been set up. */
  function Initial(start: int, pool: int): View {
    View([Block(start, pool - 2 * HEADER, false), Block(start + pool - HEADER, 0, true)], [start])
  }

  function FreeBytes(bs: seq<Block>): int {
    if bs == [] then 0 else (if bs[0].used then 0 else bs[0].size) + FreeBytes(bs[1..])
  }

  function Extent(bs: seq<Block>): int {
    if bs == [] then 0 else HEADER + bs[0].size + Extent(bs[1..])
  }

  /** The blocks in use, tailer included. */
  ghost function Live(v: View): set<Block> {
    set b | b in v.blocks && b.used
  }

  // ---- facts about tilings

  lemma Ordered(bs: seq<Block>, start: int, end: int, i: nat, j: nat)
    requires Tiled(bs, start, end) && i < j < |bs|
    ensures bs[i].End() <= bs[j].addr
    decreases j
  {
    if i + 1 < j {
      Ordered(bs, start, end, i, j - 1);
      assert bs[j - 1].End() == bs[j].addr;
    }
  }

  /** A used block in the sequence is identified by its address. */
  lemma SameAddress(bs: seq<Block>, start: int, end: int, i: nat, j: nat)
    requires Tiled(bs, start, end) && i < |bs| && j < |bs| && bs[i].addr == bs[j].addr
    ensures i == j
  {
    if i < j { Ordered(bs, start, end, i, j); }
    if j < i { Ordered(bs, start, end, j, i); }
  }

  /** The position of the block at address a. */
  ghost function Find(bs: seq<Block>, a: int): (i: nat)
    requires HasBlock(bs, a)
    ensures i < |bs| && bs[i].addr == a
  {
    var i :| 0 <= i < |bs| && bs[i].addr == a;
    i
  }

  lemma FreeBytesConcat(xs: seq<Block>, ys: seq<Block>)
    ensures FreeBytes(xs + ys) == FreeBytes(xs) + FreeBytes(ys)
  {
    if xs == [] {
      assert xs + ys == ys;
    } else {
      FreeBytesConcat(xs[1..], ys);
      assert (xs + ys)[1..] == xs[1..] + ys;
    }
  }

  /** bs with the stretch [lo, hi) replaced by mid. */
  function Splice(bs: seq<Block>, lo: nat, hi: nat, mid: seq<Block>): seq<Block>
    requires lo <= hi <= |bs|
  {
    bs[..lo] + mid + bs[hi..]
  }

  lemma FreeBytesSplice(bs: seq<Block>, lo: nat, hi: nat, mid: seq<Block>)
    requires lo <= hi <= |bs|
    ensures FreeBytes(Splice(bs, lo, hi, mid)) == FreeBytes(bs) - FreeBytes(bs[lo..hi]) + FreeBytes(mid)
  {
    FreeBytesConcat(bs[..lo] + mid, bs[hi..]);
    FreeBytesConcat(bs[..lo], mid);
    FreeBytesConcat(bs[..lo] + bs[lo..hi], bs[hi..]);
    FreeBytesConcat(bs[..lo], bs[lo..hi]);
    Parts(bs, lo, hi);
  }

  lemma FreeBytesSmall(a: Block, b: Block, c: Block)
    ensures FreeBytes([a]) == if a.used then 0 else a.size
    ensures FreeBytes([a, b]) == FreeBytes([a]) + FreeBytes([b])
    ensures FreeBytes([a, b, c]) == FreeBytes([a]) + FreeBytes([b]) + FreeBytes([c])
  {
    assert [a] == [a] + [] && [a, b] == [a] + [b] && [a, b, c] == [a, b] + [c];
    FreeBytesConcat([a], [b]);
    FreeBytesConcat([a, b], [c]);
  }

  // ---- the operations

  predicate CanSplit(size: int, want: int) {
    size >= want + HEADER + MINIALLOC
  }

  /** The stretch that replaces free block b when want bytes of it are handed out. */
  function Carve(b: Block, want: int): seq<Block> {
    if CanSplit(b.size, want)
    then [Block(b.addr, want, true), Block(b.addr + HEADER + want, b.size - want - HEADER, false)]
    else [b.(used := true)]
  }

  function AllocAt(v: View, i: nat, want: int): View
    requires i < |v.blocks|
  {
    var b := v.blocks[i];
    var rest := Without(v.free, b.addr);
    View(Splice(v.blocks, i, i + 1, Carve(b, want)),
         if CanSplit(b.size, want) then [b.addr + HEADER + want] + rest else rest)
  }

  ghost function SizeAt(v: View, a: int): int
    requires HasBlock(v.blocks, a)
  {
    v.blocks[Find(v.blocks, a)].size
  }

  /** The first free-list position from k on whose block holds want bytes. */
  ghost function FirstFit(v: View, want: int, k: nat := 0): (r: Option<nat>)
    requires k <= |v.free|
    requires Named(v.blocks, v.free)
    ensures r.Some? ==> k <= r.value < |v.free|
    decreases |v.free| - k
  {
    if k == |v.free| then None
    else if SizeAt(v, v.free[k]) >= want then Some(k)
    else FirstFit(v, want, k + 1)
  }

  predicate LeftFree(v: View, i: nat)
    requires i < |v.blocks|
  {
    i > 0 && !v.blocks[i - 1].used
  }

  predicate RightFree(v: View, i: nat)
    requires i < |v.blocks|
  {
    i + 1 < |v.blocks| && !v.blocks[i + 1].used
  }

  /** The stretch [FreeLo, FreeHi] of blocks that freeing block i joins into one. */
  function FreeLo(v: View, i: nat): nat
    requires i < |v.blocks|
  {
    if LeftFree(v, i) then i - 1 else i
  }

  function FreeHi(v: View, i: nat): nat
    requires i < |v.blocks|
  {
    if RightFree(v, i) then i + 1 else i
  }

  function Joined(v: View, lo: nat, hi: nat): Block
    requires lo < |v.blocks| && hi < |v.blocks|
  {
    Block(v.blocks[lo].addr, v.blocks[hi].End() - v.blocks[lo].addr - HEADER, false)
  }

  /** The free list without the right neighbour of block i, if that one is free. */
  function WithoutRight(v: View, i: nat): seq<int>
    requires i < |v.blocks|
  {
    if RightFree(v, i) then Without(v.free, v.blocks[i + 1].addr) else v.free
  }

  function FreeAt(v: View, i: nat): View
    requires i < |v.blocks|
  {
    var lo, hi := FreeLo(v, i), FreeHi(v, i);
    View(Splice(v.blocks, lo, hi + 1, [Joined(v, lo, hi)]),
         if LeftFree(v, i) then WithoutRight(v, i) else [v.blocks[i].addr] + WithoutRight(v, i))
  }

  /** The stretch that replaces used block i, and its free right neighbour, when i keeps want bytes. */
  function Resized(v: View, i: nat, want: int): seq<Block>
    requires i < |v.blocks|
  {
    var tail := v.blocks[i].addr + HEADER + want;
    [Block(v.blocks[i].addr, want, true), Block(tail, v.blocks[FreeHi(v, i)].End() - tail - HEADER, false)]
  }

  function ResizeAt(v: View, i: nat, want: int): View
    requires i < |v.blocks|
  {
    View(Splice(v.blocks, i, FreeHi(v, i) + 1, Resized(v, i, want)),
         [v.blocks[i].addr + HEADER + want] + WithoutRight(v, i))
  }

  /** The heap refuses a request: the byte count is not strictly below what is free, or no listed block is large enough. */
  ghost predicate Refuses(v: View, want: int)
    requires Named(v.blocks, v.free)
  {
    want >= FreeBytes(v.blocks) || FirstFit(v, want).None?
  }

  /** The block that a request is served from. */
  ghost function Chosen(v: View, want: int): (i: nat)
    requires Named(v.blocks, v.free) && FirstFit(v, want).Some?
    ensures i < |v.blocks|
  {
    Find(v.blocks, v.free[FirstFit(v, want).value])
  }

  ghost function Alloc(v: View, want: int): View
    requires Named(v.blocks, v.free)
  {
    if Refuses(v, want) then v else AllocAt(v, Chosen(v, want), want)
  }

  /** ptr is the payload address of block i, which is in use and not the tailer. */
  ghost predicate InUse(v: View, i: nat, ptr: int) {
    i < |v.blocks| - 1 && v.blocks[i].used && v.blocks[i].addr + HEADER == ptr
  }

  /** The in-place outcomes of a reallocation of block i to want (rounded) bytes. */
  predicate GrowsInPlace(v: View, i: nat, want: int)
    requires i + 1 < |v.blocks|
  {
    want > v.blocks[i].size && RightFree(v, i) && v.blocks[i + 1].size + v.blocks[i].size > want + MINIALLOC
  }

  /** The growth test of rt_memheap_realloc on a block of size bytes and its free right neighbour, with sums of 32 bits. */
  predicate GrowTest(size: int, right: int, want: int) {
    (right + size) % SPAN > (want + MINIALLOC) % SPAN
  }

  /** It decides rightly if want + MINIALLOC does not wrap around. */
  predicate GrowthDecides(v: View, i: nat, want: int)
    requires i + 1 < |v.blocks|
  {
    want > v.blocks[i].size && RightFree(v, i) ==> want + MINIALLOC < SPAN
  }

  predicate Shrinks(v: View, i: nat, want: int)
    requires i < |v.blocks|
  {
    want + HEADER + MINIALLOC < v.blocks[i].size
  }

  predicate Stays(v: View, i: nat, want: int)
    requires i < |v.blocks|
  {
    want <= v.blocks[i].size <= want + HEADER + MINIALLOC
  }

  /** Between the payload of want bytes and the block behind the free right neighbour of block i there is room for a header and more
      than a least payload. */
  predicate RoomBehind(v: View, i: nat, want: int)
    requires i + 1 < |v.blocks|
  {
    RightFree(v, i) && v.blocks[i].addr + HEADER + want + HEADER + MINIALLOC < v.blocks[i + 1].End()
  }

  /** Within block i there is, behind a payload of want bytes. */
  predicate RoomWithin(v: View, i: nat, want: int)
    requires i < |v.blocks|
  {
    v.blocks[i].addr + HEADER + want + HEADER + MINIALLOC < v.blocks[i].End()
  }

  /** Block i can neither stay, nor grow, nor move. */
  ghost predicate Stuck(v: View, i: nat, want: int)
    requires Named(v.blocks, v.free) && i + 1 < |v.blocks|
  {
    want > v.blocks[i].size && !RoomBehind(v, i, want) && Refuses(v, want)
  }

  /** Where the header of the block lies that a reallocation of block i returns. */
  ghost function Landing(v: View, i: nat, want: int): int
    requires Named(v.blocks, v.free) && i + 1 < |v.blocks| && !Stuck(v, i, want)
  {
    if want <= v.blocks[i].size || RoomBehind(v, i, want) then v.blocks[i].addr else v.blocks[Chosen(v, want)].addr
  }

  /** How many payload bytes of a block of size bytes a reallocation to want (rounded) bytes leaves it or takes along: all, unless
      the block is cut. */
  function Remaining(size: int, want: int): int {
    if size <= want + HEADER + MINIALLOC then size else want
  }

  /** The partition after block i has been asked to hold want (rounded) bytes. */
  ghost function Realloc(v: View, i: nat, want: int): View
    requires Named(v.blocks, v.free) && i + 1 < |v.blocks|
  {
    if GrowsInPlace(v, i, want) || Shrinks(v, i, want) then ResizeAt(v, i, want)
    else if Stays(v, i, want) || Refuses(v, want) then v
    else FreeAt(Alloc(v, want), MovedIndex(v, i, want))
  }

  /** The least number of free bytes reached while block i is reallocated. */
  ghost function LowestFree(v: View, i: nat, want: int): int
    requires Named(v.blocks, v.free) && i + 1 < |v.blocks|
  {
    if GrowsInPlace(v, i, want) || want <= v.blocks[i].size then FreeBytes(Realloc(v, i, want).blocks)
    else FreeBytes(Alloc(v, want).blocks)
  }

  /** Where block i stands after the move's allocation. */
  ghost function MovedIndex(v: View, i: nat, want: int): (k: nat)
    requires Named(v.blocks, v.free) && i + 1 < |v.blocks| && !Refuses(v, want)
    ensures k < |Alloc(v, want).blocks|
  {
    if Chosen(v, want) < i && CanSplit(v.blocks[Chosen(v, want)].size, want) then i + 1 else i
  }
}
