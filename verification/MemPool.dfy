// rt-thread/src/mempool.c: equal blocks, each behind one word that links it to the
// next free block or, while it is out, points to its pool.
module MemPool {
  import opened Seqs
  import opened Words
  import opened Chains
  import opened Waiting

  const POOL := -2         // a link word that holds the pool pointer instead

  /** The distance of two blocks, in 32 bits. */
  function Unit(blockSize: nat): nat {
    (AlignUp(blockSize) + WORD) % SPAN
  }

  class MemPool {
    const start: int
    const blockSize: nat
    const link: array<int>     // the word in front of each block
    var blockList: int
    var freeCount: nat
    ghost var free: seq<nat>   // the free blocks in list order

    ghost predicate Valid()
      reads this, link
    {
      && Chain(link[..], blockList, free) && Distinct(free)
      && freeCount == |free|
      && (forall i :: 0 <= i < link.Length ==> (link[i] == POOL <==> i !in free))
      && forall i :: i in free ==> i < link.Length
    }

    /** The address handed out for block i. */
    function Address(i: nat): int {
      start + i * (blockSize + WORD) + WORD
    }

    /** rt_mp_init */
    constructor (start: int, size: nat, blockSize: nat)
      requires size < SPAN && 0 < blockSize <= SPAN - WORD && AlignUp(blockSize) + WORD <= AlignDown(size)
      ensures Valid() && this.start == start && this.blockSize == AlignUp(blockSize)
      ensures link.Length == AlignDown(size) / (AlignUp(blockSize) + WORD) && fresh(link)
      ensures free == seq(link.Length, i => i)
    {
      hide Unit, AlignUp, AlignDown, Chain;
      HoldsABlock(size, blockSize);
      this.start := start;
      this.blockSize := AlignUp(blockSize);
      var total := AlignDown(size) / Unit(blockSize);
      link := new int[total];
      freeCount := total;
      blockList := 0;
      free := seq(total, i => i);
      new;
      var offset := 0;
      while offset < link.Length
        invariant offset <= link.Length
        invariant forall i :: 0 <= i < offset ==> link[i] == i + 1
        modifies link
      {
        link[offset] := offset + 1;
        offset := offset + 1;
      }
      link[offset - 1] := NIL;
      Ascending(link[..], 0);
      AllFree(free, link.Length);
    }

    /** The part of rt_mp_alloc behind the waiting loop. */
    method TakeBlock() returns (ptr: int, ghost i: nat)
      requires Valid() && freeCount > 0
      modifies this, link
      ensures Valid() && i == old(free)[0] && free == old(free)[1..] && ptr == Address(i)
    {
      freeCount := freeCount - 1;
      var block := blockList;
      i := block;
      TailMembers(free);
      ChainFrame(link[..], link[block], free[1..], block, POOL);
      ghost var before := link[..];
      blockList := link[block];
      link[block] := POOL;
      assert link[..] == before[block := POOL];
      free := free[1..];
      ptr := start + block * (blockSize + WORD) + WORD;
    }

    /** The part of rt_mp_free in front of the wake-up; the block is found from its address. */
    method PutBlock(ptr: int, i: nat)
      requires Valid() && i < link.Length && i !in free && ptr == Address(i)
      modifies this, link
      ensures Valid() && free == [i] + old(free)
    {
      freeCount := freeCount + 1;
      ChainFrame(link[..], blockList, free, i, blockList);
      InsertMembers(free, 0, i);
      assert InsertAt(free, 0, i) == [i] + free;
      ghost var before := link[..];
      link[i] := blockList;
      assert link[..] == before[i := blockList];
      blockList := i;
      free := [i] + free;
      assert free[1..] == old(free);
    }
  }

  lemma HoldsABlock(size: nat, blockSize: nat)
    requires size < SPAN && 0 < blockSize <= SPAN - WORD && AlignUp(blockSize) + WORD <= AlignDown(size)
    ensures Unit(blockSize) == AlignUp(blockSize) + WORD && AlignDown(size) / Unit(blockSize) >= 1
  {
  }

  lemma AllFree(free: seq<nat>, n: nat)
    requires free == seq(n, i => i)
    ensures free == seq(n, i requires 0 <= i => i + 0) && Distinct(free)
    ensures forall i: nat :: i in free <==> i < n
  {
    forall i: nat | i < n
      ensures i in free
    {
      assert free[i] == i;
    }
  }

  lemma {:induction false} Ascending(link: seq<int>, k: nat)
    requires k < |link| && link[|link| - 1] == NIL && forall i :: 0 <= i < |link| - 1 ==> link[i] == i + 1
    ensures Chain(link, k, seq(|link| - k, i requires 0 <= i => i + k))
    decreases |link| - k
  {
    var s := seq(|link| - k, i requires 0 <= i => i + k);
    if k + 1 < |link| {
      Ascending(link, k + 1);
      assert s[1..] == seq(|link| - (k + 1), i requires 0 <= i => i + (k + 1));
    } else {
      assert s[1..] == [];
    }
  }

  /** The offsets of the words that rt_mp_init writes into room bytes for blocks unit bytes apart: one in front of each block,
      then the last of these again, or what would be the one before the first. */
  function FormatWrites(room: nat, unit: nat): (w: seq<int>)
    requires unit > 0
    ensures |w| == room / unit + 1 && w[room / unit] == (room / unit - 1) * unit
    ensures forall k :: 0 <= k < room / unit ==> w[k] == k * unit
  {
    seq(room / unit, offset => offset * unit) + [(room / unit - 1) * unit]
  }

  lemma Spaced(room: nat, unit: nat, k: nat)
    requires unit > 0 && k < room / unit
    ensures 0 <= k * unit <= room - unit
  {
    assert room == room / unit * unit + room % unit;
    Monotone(k + 1, room / unit, unit);
    assert (k + 1) * unit == k * unit + unit;
  }

  ghost predicate Inside(writes: seq<int>, room: nat) {
    forall k :: 0 <= k < |writes| ==> 0 <= writes[k] <= room - WORD
  }

  lemma WritesInside(room: nat, unit: nat)
    requires unit >= WORD
    ensures Inside(FormatWrites(room, unit), room) <==> unit <= room
  {
    var w, total := FormatWrites(room, unit), room / unit;
    if unit <= room {
      Quotients(room, unit);
      forall k | 0 <= k < |w|
        ensures 0 <= w[k] <= room - WORD
      {
        Spaced(room, unit, if k < total then k else total - 1);
      }
    } else {
      Divides(room, unit, 0, room);
      assert w[total] + unit == 0;
    }
  }

  lemma Quotients(room: nat, unit: nat)
    requires 0 < unit <= room
    ensures room / unit > 0
  {
    if room / unit <= 0 { Divides(room, unit, 0, room); }
  }

  /** Initialisation leaves blocks of the size asked for and writes inside the pool only, exactly when the size does not wrap
      around and the pool has room for one block and its word. */
  lemma FormatFits(size: nat, blockSize: nat)
    requires 0 < size < SPAN && 0 < blockSize < SPAN
    ensures (AlignUp(blockSize) >= blockSize && Unit(blockSize) > 0 && Inside(FormatWrites(AlignDown(size), Unit(blockSize)), AlignDown(size)))
      <==> (blockSize <= SPAN - WORD && AlignUp(blockSize) + WORD <= AlignDown(size))
  {
    hide Inside, FormatWrites;
    if Unit(blockSize) > 0 {
      WritesInside(AlignDown(size), Unit(blockSize));
    }
  }

  /** A witness: in a pool of 8 bytes for blocks of 8, the one word written lies 12 bytes in front of the pool. */
  lemma FormatUnderruns()
    ensures Unit(8) == 12 && FormatWrites(AlignDown(8), Unit(8)) == [-12]
  {
  }

  /** The payloads of two different blocks do not overlap, and each lies inside the pool. */
  lemma BlocksApart(start: int, size: nat, blockSize: nat, i: nat, j: nat)
    requires blockSize > 0 && i < j < AlignDown(size) / (blockSize + WORD)
    ensures var a, b := start + i * (blockSize + WORD) + WORD, start + j * (blockSize + WORD) + WORD;
      start + WORD <= a && a + blockSize + WORD <= b && b + blockSize <= start + size
  {
    var unit, total := blockSize + WORD, AlignDown(size) / (blockSize + WORD);
    Monotone(i + 1, j, unit);
    Monotone(j + 1, total, unit);
    assert (i + 1) * unit == i * unit + unit && (j + 1) * unit == j * unit + unit;
    assert total * unit <= AlignDown(size);
  }

  lemma Monotone(i: nat, j: nat, unit: nat)
    requires i <= j
    ensures i * unit <= j * unit
  {
  }

  // ---- the protocol of rt_mp_alloc and rt_mp_free

  datatype State = State(free: seq<nat>, out: set<nat>, waiters: Side)

  datatype Action =
    | Alloc(t: Tid)          // a block is free
    | AllocBlock(t: Tid)     // none is; the newest waiter goes to the front
    | AllocGiveUp(t: Tid)
    | Free(i: nat)
    | Timeout(t: Tid)

  predicate Enabled(s: State, a: Action) {
    match a
    case Alloc(t) => t !in s.waiters.waiting && s.free != []
    case AllocBlock(t) => t !in s.waiters.waiting && s.free == []
    case AllocGiveUp(t) => t !in s.waiters.waiting && s.free == []
    case Free(i) => i in s.out
    case Timeout(_) => true
  }

  function Next(s: State, a: Action): State
    requires Enabled(s, a)
  {
    match a
    case Alloc(t) => State(s.free[1..], s.out + {s.free[0]}, Leave(s.waiters, t))
    case AllocBlock(t) => s.(waiters := Block(s.waiters, t, 0))
    case AllocGiveUp(t) => s.(waiters := Leave(s.waiters, t))
    case Free(i) => State([i] + s.free, s.out - {i}, Wake(s.waiters))
    case Timeout(t) => s.(waiters := Expire(s.waiters, t))
  }

  /** A running thread gets a block exactly if one is free, and otherwise can wait or give up. */
  lemma NeverStuck(s: State, t: Tid)
    requires t !in s.waiters.waiting
    ensures Enabled(s, Alloc(t)) <==> |s.free| > 0
    ensures Enabled(s, AllocBlock(t)) && Enabled(s, AllocGiveUp(t)) <==> !Enabled(s, Alloc(t))
  {
  }

  /** The thread that has come last waits in front of all others, and so is the first to be resumed. */
  lemma NewestFirst(s: State, t: Tid, i: nat, total: nat)
    requires Inv(s, total) && Enabled(s, AllocBlock(t)) && i in s.out
    ensures Enabled(Next(s, AllocBlock(t)), Free(i))
    ensures var r := Next(Next(s, AllocBlock(t)), Free(i)).waiters; t in r.woken && r.waiting == s.waiters.waiting
  {
    ServedSound(s, total);
    WaitsExactly(s.waiters, t, 0);
    hide Inv, Block, Expire, Distinct;
    var b := Block(s.waiters, t, 0);
    assert b.waiting[..0] + b.waiting[1..] == b.waiting[1..];
  }

  lemma ServedSound(s: State, total: nat)
    requires Inv(s, total)
    ensures Sound(s.waiters)
  {
  }

  /** The block given back last is the next one handed out, with nothing changed then but who waits. */
  lemma LastFreedFirst(s: State, i: nat, t: Tid)
    requires Enabled(s, Free(i)) && t !in s.waiters.waiting
    ensures Enabled(Next(s, Free(i)), Alloc(t))
    ensures var r := Next(Next(s, Free(i)), Alloc(t)); r.free == s.free && r.out == s.out
  {
  }

  /** Every block is free or out, never both; and nobody waits beside a free block that nobody else is coming for. */
  ghost predicate Inv(s: State, total: nat) {
    && Distinct(s.free)
    && (forall i: nat :: i < total <==> i in s.free || i in s.out)
    && (forall i :: i in s.free ==> i !in s.out)
    && Served(|s.free|, s.waiters)
  }

  lemma StepKeepsInv(s: State, a: Action, total: nat)
    requires Inv(s, total) && Enabled(s, a)
    ensures Inv(Next(s, a), total)
  {
    match a
    case Alloc(t) =>
      LeaveServed(s.waiters, t, |s.free|);
      TailMembers(s.free);
    case AllocBlock(t) => BlockServed(s.waiters, t, 0);
    case AllocGiveUp(t) => LeaveServed(s.waiters, t, 0);
    case Free(i) =>
      WakeServed(s.waiters, |s.free|);
      InsertMembers(s.free, 0, i);
      assert InsertAt(s.free, 0, i) == [i] + s.free;
    case Timeout(t) => ExpireServed(s.waiters, t, |s.free|);
  }

  /** The free count and the blocks that are out always add up to the pool. */
  lemma CountsAddUp(s: State, total: nat)
    requires Inv(s, total)
    ensures |s.free| + |s.out| == total
  {
    SizeOfElements(s.free);
    assert Elements(s.free) !! s.out;
    assert Elements(s.free) + s.out == Below(total);
    assert |Elements(s.free) + s.out| == |Elements(s.free)| + |s.out|;
  }

  ghost predicate IsRun(s: State, steps: seq<Action>)
    decreases |steps|
  {
    steps != [] ==> Enabled(s, steps[0]) && IsRun(Next(s, steps[0]), steps[1..])
  }

  ghost function After(s: State, steps: seq<Action>): State
    requires IsRun(s, steps)
    decreases |steps|
  {
    if steps == [] then s else After(Next(s, steps[0]), steps[1..])
  }

  lemma {:induction false} EveryRun(s: State, steps: seq<Action>, total: nat)
    requires Inv(s, total) && IsRun(s, steps)
    ensures Inv(After(s, steps), total)
    ensures |After(s, steps).free| + |After(s, steps).out| == total
    decreases |steps|
  {
    if steps == [] {
      CountsAddUp(s, total);
    } else {
      StepKeepsInv(s, steps[0], total);
      EveryRun(Next(s, steps[0]), steps[1..], total);
    }
  }
}
