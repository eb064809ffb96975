// The small-memory allocator of mem.c, on values: blocks in address order, first fit from
// the lowest free block, and neighbours joined when a block is freed or cut.
module SmallSpec {
  import opened Words

  const HEADER: nat := 12     // SIZEOF_STRUCT_MEM
  const MIN_SIZE: nat := 12   // MIN_SIZE_ALIGNED

  /** Offsets into the pool: a header at start, the payload behind it up to the next header at end. */
  datatype Block = Block(start: nat, end: nat, used: bool)
  {
    function Room(): int {
      end - start - HEADER
    }
  }

  ghost predicate Shaped(b: Block) {
    b.start + HEADER <= b.end && b.start % 4 == 0
  }

  ghost predicate Meets(bs: seq<Block>, i: nat)
    requires i + 1 < |bs|
  {
    bs[i].end == bs[i + 1].start
  }

  /** Of two neighbours one is in use. */
  ghost predicate Parted(bs: seq<Block>, i: nat)
    requires i + 1 < |bs|
  {
    bs[i].used || bs[i + 1].used
  }

  /** From offset 0 to offset end, block after block. */
  ghost predicate Tiled(bs: seq<Block>, end: nat) {
    && bs != []
    && bs[0].start == 0 && bs[|bs| - 1].end == end
    && (forall i :: 0 <= i < |bs| ==> Shaped(bs[i]))
    && (forall i {:trigger Meets(bs, i)} :: 0 <= i && i + 1 < |bs| ==> Meets(bs, i))
  }

  ghost predicate NoNeighbours(bs: seq<Block>) {
    forall i {:trigger Parted(bs, i)} :: 0 <= i && i + 1 < |bs| ==> Parted(bs, i)
  }

  ghost predicate Valid(bs: seq<Block>, end: nat) {
    Tiled(bs, end) && NoNeighbours(bs)
  }

  function Share(b: Block): int {
    if b.used then b.end - b.start else 0
  }

  /** The extent of the blocks in use, headers included. */
  function UsedBytes(bs: seq<Block>): int {
    if bs == [] then 0 else Share(bs[0]) + UsedBytes(bs[1..])
  }

  // ---- changes

  function SetUsed(bs: seq<Block>, i: nat, used: bool): seq<Block>
    requires i < |bs|
  {
    bs[i := bs[i].(used := used)]
  }

  /** Block i keeps the bytes up to cut and is in use; the rest is a free block. */
  function Split(bs: seq<Block>, i: nat, cut: nat): seq<Block>
    requires i < |bs|
  {
    bs[..i] + [Block(bs[i].start, cut, true), Block(cut, bs[i].end, false)] + bs[i + 1..]
  }

  /** Block i swallows its right neighbour. */
  function Join(bs: seq<Block>, i: nat): seq<Block>
    requires i + 1 < |bs|
  {
    bs[..i] + [Block(bs[i].start, bs[i + 1].end, bs[i].used)] + bs[i + 2..]
  }

  function JoinRight(bs: seq<Block>, i: nat): seq<Block>
    requires i < |bs|
  {
    if i + 1 < |bs| && !bs[i + 1].used then Join(bs, i) else bs
  }

  function JoinLeft(bs: seq<Block>, i: nat): seq<Block>
    requires i < |bs|
  {
    if i > 0 && !bs[i - 1].used then Join(bs, i - 1) else bs
  }

  /** plug_holes */
  function PlugHoles(bs: seq<Block>, i: nat): seq<Block>
    requires i < |bs|
  {
    JoinLeft(JoinRight(bs, i), i)
  }

  // ---- requests

  /** mem_size_aligned - size, as 32 unsigned bits: a heap smaller than the size has a bound behind its end. */
  function Bound(limit: nat, size: nat): (r: nat)
    ensures size <= limit < SPAN ==> r == limit - size
  {
    (limit - size) % SPAN
  }

  /** The test of the search loop at block b; the bound on its start is strict. */
  predicate Takes(b: Block, size: nat, limit: nat) {
    b.start < Bound(limit, size) && !b.used && b.Room() >= size
  }

  /** The first block from k on that the search accepts, or the number of blocks. */
  function FirstFit(bs: seq<Block>, k: nat, size: nat, limit: nat): (i: nat)
    requires k <= |bs|
    ensures k <= i <= |bs|
    ensures forall j :: k <= j < i ==> !Takes(bs[j], size, limit)
    ensures i < |bs| ==> Takes(bs[i], size, limit)
    decreases |bs| - k
  {
    if k == |bs| || Takes(bs[k], size, limit) then k else FirstFit(bs, k + 1, size, limit)
  }

  /** What rt_malloc looks for; the topmost requests wrap around to the least size. */
  function Wanted(size: nat): (w: nat)
    ensures MIN_SIZE <= w <= SPAN - WORD && w % WORD == 0
    ensures size <= SPAN - WORD ==> w >= size
  {
    Max(AlignUp(size), MIN_SIZE)
  }

  predicate Refuses(bs: seq<Block>, size: nat, limit: nat) {
    size == 0 || AlignUp(size) > limit || FirstFit(bs, 0, Wanted(size), limit) == |bs|
  }

  /** A request that passes the size test although no heap of this size can have a block for it. */
  predicate SpinsOn(size: nat, limit: nat) {
    0 < size && AlignUp(size) <= limit < MIN_SIZE
  }

  function TakeAt(bs: seq<Block>, i: nat, size: nat): seq<Block>
    requires i < |bs|
  {
    if bs[i].Room() >= size + HEADER + MIN_SIZE then Split(bs, i, bs[i].start + HEADER + size)
    else SetUsed(bs, i, true)
  }

  function Malloc(bs: seq<Block>, size: nat, limit: nat): seq<Block> {
    if Refuses(bs, size, limit) then bs else TakeAt(bs, FirstFit(bs, 0, Wanted(size), limit), Wanted(size))
  }

  function FreeAt(bs: seq<Block>, i: nat): seq<Block>
    requires i < |bs|
  {
    PlugHoles(SetUsed(bs, i, false), i)
  }

  /** What is left of the blocks when rt_realloc returns NULL for block i. */
  function NullOutcome(bs: seq<Block>, i: nat, newsize: nat): seq<Block>
    requires i < |bs|
  {
    if AlignUp(newsize) == 0 then FreeAt(bs, i) else bs
  }

  predicate Cuts(b: Block, newsize: nat) {
    newsize + HEADER + MIN_SIZE < b.Room()
  }

  /** Behind a payload of newsize bytes block b has room for a header and more than a least payload. */
  predicate RoomWithin(b: Block, newsize: nat) {
    b.start + HEADER + newsize + HEADER + MIN_SIZE < b.end
  }

  /** Block i is neither of the size wanted, nor can it be cut, nor can it move. */
  predicate Stuck(bs: seq<Block>, i: nat, size: nat, limit: nat)
    requires i < |bs|
  {
    bs[i].end != bs[i].start + HEADER + size && !RoomWithin(bs[i], size) && Refuses(bs, size, limit)
  }

  function CutAt(bs: seq<Block>, i: nat, newsize: nat): seq<Block>
    requires i < |bs|
  {
    PlugHoles(Split(bs, i, bs[i].start + HEADER + newsize), i + 1)
  }

  // ---- the lowest free block

  function Lowest(bs: seq<Block>, end: nat): nat {
    if bs == [] then end else if !bs[0].used then bs[0].start else Lowest(bs[1..], end)
  }

  function IndexAt(bs: seq<Block>, start: nat): (i: nat)
    ensures i <= |bs|
    ensures i < |bs| ==> bs[i].start == start
    ensures forall j :: 0 <= j < i ==> bs[j].start != start
  {
    if bs == [] || bs[0].start == start then 0 else 1 + IndexAt(bs[1..], start)
  }
}
