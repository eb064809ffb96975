// memheap.c under concurrent calls: each locked part is a step, and so is each test or
// read of a size in front of one.
module MemHeapThreads {
  import opened Seqs
  import opened Words
  import opened HeapSpec
  import opened HeapLaws
  import opened HeapTheorems

  type Tid = nat

  /** Where a thread stands in its call; from is the block that a reallocation moves. */
  datatype Call =
    | Passed(from: Option<Block>, want: nat)   // available_size was larger than want
    | Sized(b: Block, want: nat)               // the size of the block to be reallocated has been read
    | Unplaced(b: Block, want: nat)            // the block cannot grow where it is
    | Served(b: Block, to: Block)              // its new block is taken, the old one is to be freed

  datatype Shared = Shared(v: View, calls: map<Tid, Call>)

  datatype Action =
    | Test(t: Tid, n: nat)             // rt_memheap_alloc, in front of the lock
    | Find(t: Tid)                     // and behind it
    | Free(b: Block)
    | Read(t: Tid, b: Block, n: nat)   // rt_memheap_realloc, in front of the lock
    | Resize(t: Tid)                   // stay, or behind the lock grow, shrink or give up
    | TestMove(t: Tid)                 // rt_memheap_alloc for a block that has to move
    | FreeOld(t: Tid)                  // rt_memheap_free for one that has moved

  /** The call relies on block b. */
  predicate Claims(c: Call, b: Block) {
    match c
    case Passed(from, _) => from == Some(b)
    case Sized(x, _) => x == b
    case Unplaced(x, _) => x == b
    case Served(x, y) => x == b || y == b
  }

  ghost predicate Claimed(calls: map<Tid, Call>, b: Block) {
    exists t :: t in calls && Claims(calls[t], b)
  }

  /** Block b is in use and not the tailer. */
  ghost predicate Usable(v: View, b: Block, end: int) {
    b in Live(v) && b.addr < end
  }

  ghost function At(v: View, b: Block): (i: nat)
    requires b in v.blocks
    ensures i < |v.blocks| && v.blocks[i] == b
  {
    var i :| 0 <= i < |v.blocks| && v.blocks[i] == b;
    i
  }

  /** What a thread has read is still so, and nobody else is at its blocks. */
  ghost predicate Safe(g: Shared, start: int, end: int) {
    && Valid(g.v, start, end)
    && (forall t, b :: t in g.calls && Claims(g.calls[t], b) ==> Usable(g.v, b, end))
    && (forall t, u, b :: t in g.calls && u in g.calls && Claims(g.calls[t], b) && Claims(g.calls[u], b) ==> t == u)
    && (forall t :: t in g.calls && g.calls[t].Served? ==> g.calls[t].b != g.calls[t].to)
  }

  ghost predicate Enabled(g: Shared, a: Action, start: int, end: int)
    requires Safe(g, start, end)
  {
    match a
    case Test(t, _) => t !in g.calls
    case Find(t) => t in g.calls && g.calls[t].Passed?
    case Free(b) => Usable(g.v, b, end) && !Claimed(g.calls, b)
    case Read(t, b, n) => t !in g.calls && Usable(g.v, b, end) && !Claimed(g.calls, b) && n > 0
    case Resize(t) => t in g.calls && g.calls[t].Sized? && GrowsRightly(g.v, g.calls[t].b, g.calls[t].want)
    case TestMove(t) => t in g.calls && g.calls[t].Unplaced?
    case FreeOld(t) => t in g.calls && g.calls[t].Served?
  }

  ghost predicate GrowsRightly(v: View, b: Block, want: nat) {
    b in v.blocks && At(v, b) + 1 < |v.blocks| ==> GrowthDecides(v, At(v, b), want)
  }

  /** The locked part of rt_memheap_alloc: the first block that fits, whatever has become of available_size. */
  ghost function Take(v: View, want: nat): View
    requires Named(v.blocks, v.free)
  {
    if FirstFit(v, want).None? then v else AllocAt(v, Chosen(v, want), want)
  }

  ghost function Next(g: Shared, a: Action, start: int, end: int): Shared
    requires Safe(g, start, end) && Enabled(g, a, start, end)
  {
    var v := g.v;
    match a
    case Test(t, n) => if Rounded(n) < FreeBytes(v.blocks) then g.(calls := g.calls[t := Passed(None, Rounded(n))]) else g
    case Find(t) =>
      var c := g.calls[t];
      if FirstFit(v, c.want).None? then g.(calls := g.calls - {t})
      else
        var b := Carve(v.blocks[Chosen(v, c.want)], c.want)[0];
        Shared(Take(v, c.want), if c.from.None? then g.calls - {t} else g.calls[t := Served(c.from.value, b)])
    case Free(b) => g.(v := FreeAt(v, At(v, b)))
    case Read(t, b, n) => g.(calls := g.calls[t := Sized(b, Rounded(n))])
    case Resize(t) =>
      var c := g.calls[t];
      assert Claims(c, c.b);
      AtUsable(v, c.b, start, end);
      var i := At(v, c.b);
      if GrowsInPlace(v, i, c.want) || Shrinks(v, i, c.want) then Shared(ResizeAt(v, i, c.want), g.calls - {t})
      else if Stays(v, i, c.want) then g.(calls := g.calls - {t})
      else g.(calls := g.calls[t := Unplaced(c.b, c.want)])
    case TestMove(t) =>
      var c := g.calls[t];
      g.(calls := if c.want < FreeBytes(v.blocks) then g.calls[t := Passed(Some(c.b), c.want)] else g.calls - {t})
    case FreeOld(t) =>
      assert Claims(g.calls[t], g.calls[t].b);
      AtUsable(v, g.calls[t].b, start, end);
      Shared(FreeAt(v, At(v, g.calls[t].b)), g.calls - {t})
  }

  lemma AtUsable(v: View, b: Block, start: int, end: int)
    requires Valid(v, start, end) && Usable(v, b, end)
    ensures b in v.blocks && At(v, b) < |v.blocks| - 1 && v.blocks[At(v, b)].used
  {
  }

  // ---- each step

  /** What a step does to the blocks in use: one more of the size wanted or a little larger, which a move goes on with; one less;
      one in another size; or nothing. */
  ghost predicate Effect(g: Shared, g': Shared, a: Action)
    requires !a.Test? && !a.Free? && !a.Read? ==> a.t in g.calls
    requires (a.Find? ==> g.calls[a.t].Passed?) && (a.Resize? ==> g.calls[a.t].Sized?) && (a.FreeOld? ==> g.calls[a.t].Served?)
    requires a.TestMove? ==> g.calls[a.t].Unplaced?
  {
    match a
    case Find(t) =>
      var c := g.calls[t];
      (Live(g'.v) == Live(g.v) && t !in g'.calls) || exists b :: Adds(g, g', t, b, c.want)
    case Free(b) => Live(g'.v) == Live(g.v) - {b}
    case Resize(t) =>
      var c := g.calls[t];
      && (t in g'.calls ==> Live(g'.v) == Live(g.v) && g'.calls[t] == Unplaced(c.b, c.want))
      && (c.b in g.v.blocks && At(g.v, c.b) + 1 < |g.v.blocks| ==>
           (t in g'.calls <==> c.want > c.b.size && !RoomBehind(g.v, At(g.v, c.b), c.want)))
      && (t !in g'.calls && c.want > c.b.size ==> Live(g'.v) == Live(g.v) - {c.b} + {c.b.(size := c.want)})
      && (t !in g'.calls ==> Live(g'.v) == Live(g.v) || Live(g'.v) == Live(g.v) - {c.b} + {c.b.(size := c.want)})
    case FreeOld(t) => Live(g'.v) == Live(g.v) - {g.calls[t].b}
    case Test(t, n) => g'.v == g.v && (t in g'.calls <==> Rounded(n) < FreeBytes(g.v.blocks))
    case TestMove(t) => g'.v == g.v && (t in g'.calls <==> g.calls[t].want < FreeBytes(g.v.blocks))
    case Read(t, b, n) => g'.v == g.v && t in g'.calls && g'.calls[t] == Sized(b, Rounded(n))
  }

  ghost predicate Adds(g: Shared, g': Shared, t: Tid, b: Block, want: nat)
    requires t in g.calls && g.calls[t].Passed?
  {
    && b.used && want <= b.size < want + HEADER + MINIALLOC && b !in Live(g.v) && Live(g'.v) == Live(g.v) + {b}
    && (t in g'.calls <==> g.calls[t].from.Some?) && (t in g'.calls ==> g'.calls[t] == Served(g.calls[t].from.value, b))
  }

  /** A step of thread t, or of none, that takes the blocks in gone out of use and those in come into use. */
  lemma StepSafe(g: Shared, g': Shared, t: Option<Tid>, gone: set<Block>, come: set<Block>, start: int, end: int)
    requires Safe(g, start, end) && Valid(g'.v, start, end) && Live(g'.v) == Live(g.v) - gone + come
    requires forall u: Tid :: t != Some(u) ==> (u in g'.calls <==> u in g.calls) && (u in g.calls ==> g'.calls[u] == g.calls[u])
    requires forall u: Tid, b :: t != Some(u) && u in g.calls && Claims(g.calls[u], b) ==> b !in gone
    requires t.Some? && t.value in g'.calls ==>
      && (forall b :: Claims(g'.calls[t.value], b) ==>
           Usable(g'.v, b, end) && ((t.value in g.calls && Claims(g.calls[t.value], b)) || !Claimed(g.calls, b)))
      && (g'.calls[t.value].Served? ==> g'.calls[t.value].b != g'.calls[t.value].to)
    ensures Safe(g', start, end)
  {
    hide Valid, Live, Claims;
    forall u, b | u in g.calls && Claims(g.calls[u], b)
      ensures Claimed(g.calls, b) && Usable(g.v, b, end)
    {
    }
    forall u, b | u in g'.calls && Claims(g'.calls[u], b)
      ensures Usable(g'.v, b, end)
    {
      if t != Some(u) { assert u in g.calls && g'.calls[u] == g.calls[u] && Usable(g.v, b, end); }
    }
    forall u, w, b | u in g'.calls && w in g'.calls && Claims(g'.calls[u], b) && Claims(g'.calls[w], b)
      ensures u == w
    {
      if t != Some(u) { assert Claims(g.calls[u], b); }
      if t != Some(w) { assert Claims(g.calls[w], b); }
    }
  }

  lemma Unclaimed(g: Shared, b: Block, start: int, end: int)
    requires Safe(g, start, end) && b !in Live(g.v)
    ensures !Claimed(g.calls, b)
  {
    hide Valid, Live, Claims;
    forall t: Tid, x | t in g.calls && Claims(g.calls[t], x)
      ensures x in Live(g.v)
    {
      assert Usable(g.v, x, end);
    }
  }

  /** The block that the locked part of rt_memheap_alloc takes. */
  lemma Taken(v: View, start: int, end: int, want: nat) returns (b: Block)
    requires Valid(v, start, end) && Named(v.blocks, v.free) && FirstFit(v, want).Some?
    ensures b == Carve(v.blocks[Chosen(v, want)], want)[0] && b.used && want <= b.size < want + HEADER + MINIALLOC && b.addr < end
    ensures Valid(Take(v, want), start, end) && b !in Live(v) && Live(Take(v, want)) == Live(v) + {b}
  {
    ChosenFits(v, start, end, want);
    var c := Chosen(v, want);
    AllocKeepsValid(v, start, end, c, want);
    LiveAlloc(v, start, end, c, want);
    Ordered(v.blocks, start, end, c, |v.blocks| - 1);
    b := Carve(v.blocks[c], want)[0];
  }

  lemma FindIs(g: Shared, t: Tid, start: int, end: int)
    requires Safe(g, start, end) && Enabled(g, Find(t), start, end)
    ensures var c, g' := g.calls[t], Next(g, Find(t), start, end);
      if FirstFit(g.v, c.want).None? then g' == g.(calls := g.calls - {t})
      else g' == Shared(Take(g.v, c.want), Onwards(g.calls, t, Carve(g.v.blocks[Chosen(g.v, c.want)], c.want)[0]))
  {
    hide Take, FirstFit, Carve, Chosen;
  }

  /** The calls, when thread t has been served with block b. */
  function Onwards(calls: map<Tid, Call>, t: Tid, b: Block): map<Tid, Call>
    requires t in calls && calls[t].Passed?
  {
    if calls[t].from.None? then calls - {t} else calls[t := Served(calls[t].from.value, b)]
  }

  lemma FindServes(g: Shared, v': View, t: Tid, b: Block, start: int, end: int)
    requires Safe(g, start, end) && t in g.calls && g.calls[t].Passed? && Valid(v', start, end) && Live(v') == Live(g.v) + {b}
    requires b.used && g.calls[t].want <= b.size < g.calls[t].want + HEADER + MINIALLOC && b.addr < end && b !in Live(g.v)
    ensures Safe(Shared(v', Onwards(g.calls, t, b)), start, end)
    ensures Adds(g, Shared(v', Onwards(g.calls, t, b)), t, b, g.calls[t].want)
  {
    Unclaimed(g, b, start, end);
    var c, g' := g.calls[t], Shared(v', Onwards(g.calls, t, b));
    if c.from.Some? {
      assert Claims(c, c.from.value);
      assert Usable(g.v, c.from.value, end);
    }
    hide Valid, Live;
    StepSafe(g, g', Some(t), {}, {b}, start, end);
  }

  lemma FindSafe(g: Shared, t: Tid, start: int, end: int)
    requires Safe(g, start, end) && Enabled(g, Find(t), start, end)
    ensures Safe(Next(g, Find(t), start, end), start, end) && Effect(g, Next(g, Find(t), start, end), Find(t))
  {
    var c, g' := g.calls[t], Next(g, Find(t), start, end);
    FindIs(g, t, start, end);
    hide Next, Valid, Live, Take, FirstFit, Carve, Chosen, Onwards, Adds, Claims, Usable;
    if FirstFit(g.v, c.want).None? {
      StepSafe(g, g', Some(t), {}, {}, start, end);
    } else {
      var b := Taken(g.v, start, end, c.want);
      FindServes(g, Take(g.v, c.want), t, b, start, end);
    }
  }

  /** Steps in front of the lock. */
  lemma ReadSafe(g: Shared, a: Action, start: int, end: int)
    requires Safe(g, start, end) && Enabled(g, a, start, end) && (a.Test? || a.Read? || a.TestMove?)
    ensures Safe(Next(g, a, start, end), start, end) && Effect(g, Next(g, a, start, end), a)
  {
    if a.TestMove? { assert Claims(g.calls[a.t], g.calls[a.t].b); }
    StepSafe(g, Next(g, a, start, end), Some(a.t), {}, {}, start, end);
  }

  /** Nobody but thread t relies on a block that it claims. */
  lemma OnlyClaim(g: Shared, t: Tid, b: Block, start: int, end: int)
    requires Safe(g, start, end) && t in g.calls && Claims(g.calls[t], b)
    ensures Usable(g.v, b, end) && forall u: Tid, x :: u != t && u in g.calls && Claims(g.calls[u], x) ==> x != b
  {
    hide Valid, Live, Claims;
  }

  lemma FreeAtSafe(v: View, b: Block, start: int, end: int)
    requires Valid(v, start, end) && Usable(v, b, end)
    ensures b in v.blocks && Valid(FreeAt(v, At(v, b)), start, end) && Live(FreeAt(v, At(v, b))) == Live(v) - {b}
  {
    AtUsable(v, b, start, end);
    FreeKeepsValid(v, start, end, At(v, b));
    LiveFree(v, start, end, At(v, b));
  }

  lemma FreeSafe(g: Shared, b: Block, start: int, end: int)
    requires Safe(g, start, end) && Enabled(g, Free(b), start, end)
    ensures var g' := Next(g, Free(b), start, end); Safe(g', start, end) && Live(g'.v) == Live(g.v) - {b}
  {
    FreeAtSafe(g.v, b, start, end);
    hide Valid, Live, FreeAt, Claims;
    StepSafe(g, Next(g, Free(b), start, end), None, {b}, {}, start, end);
  }

  lemma FreeOldSafe(g: Shared, t: Tid, start: int, end: int)
    requires Safe(g, start, end) && Enabled(g, FreeOld(t), start, end)
    ensures var g' := Next(g, FreeOld(t), start, end); Safe(g', start, end) && Live(g'.v) == Live(g.v) - {g.calls[t].b}
  {
    var b := g.calls[t].b;
    OnlyClaim(g, t, b, start, end);
    FreeAtSafe(g.v, b, start, end);
    hide Valid, Live, FreeAt, Claims;
    StepSafe(g, Next(g, FreeOld(t), start, end), Some(t), {b}, {}, start, end);
  }

  /** Growing or shrinking in place. */
  lemma ResizeAtSafe(v: View, b: Block, want: nat, start: int, end: int)
    requires Valid(v, start, end) && Usable(v, b, end) && b in v.blocks && At(v, b) + 1 < |v.blocks|
    requires GrowsInPlace(v, At(v, b), want) || Shrinks(v, At(v, b), want)
    ensures var w := ResizeAt(v, At(v, b), want); Valid(w, start, end) && Live(w) == Live(v) - {b} + {b.(size := want)}
  {
    var i := At(v, b);
    AtUsable(v, b, start, end);
    if GrowsInPlace(v, i, want) { GrowRoom(v, start, end, i, want); } else { ShrinkRoom(v, start, end, i, want); }
    ResizeKeepsValid(v, start, end, i, want);
    LiveResize(v, start, end, i, want);
  }

  lemma ResizeSafe(g: Shared, t: Tid, start: int, end: int)
    requires Safe(g, start, end) && Enabled(g, Resize(t), start, end)
    ensures var g', c := Next(g, Resize(t), start, end), g.calls[t];
      && Safe(g', start, end)
      && Effect(g, g', Resize(t))
  {
    hide Valid, ResizeAt, GrowthDecides, Live, GrowsInPlace, Splice, Without;
    var c, g' := g.calls[t], Next(g, Resize(t), start, end);
    assert Claims(c, c.b);
    OnlyClaim(g, t, c.b, start, end);
    AtUsable(g.v, c.b, start, end);
    var i := At(g.v, c.b);
    if c.want > c.b.size { GrowsWhere(g.v, start, end, i, c.want); }
    if GrowsInPlace(g.v, i, c.want) || Shrinks(g.v, i, c.want) {
      ResizeAtSafe(g.v, c.b, c.want, start, end);
      StepSafe(g, g', Some(t), {c.b}, {c.b.(size := c.want)}, start, end);
    } else {
      StepSafe(g, g', Some(t), {}, {}, start, end);
    }
  }

  /** Whatever comes between the parts of a call: the heap stays right, and what each call relies on stays as it has read it. */
  lemma StepKeepsSafe(g: Shared, a: Action, start: int, end: int)
    requires Safe(g, start, end) && Enabled(g, a, start, end)
    ensures Safe(Next(g, a, start, end), start, end) && Effect(g, Next(g, a, start, end), a)
  {
    hide Safe, Live, Valid;
    match a
    case Find(t) => FindSafe(g, t, start, end);
    case Free(b) => FreeSafe(g, b, start, end);
    case Resize(t) => ResizeSafe(g, t, start, end);
    case FreeOld(t) => FreeOldSafe(g, t, start, end);
    case _ => ReadSafe(g, a, start, end);
  }

  // ---- every interleaving

  ghost predicate IsRun(g: Shared, steps: seq<Action>, start: int, end: int)
    requires Safe(g, start, end)
    decreases |steps|
  {
    steps != [] ==>
      && Enabled(g, steps[0], start, end)
      && (StepKeepsSafe(g, steps[0], start, end); IsRun(Next(g, steps[0], start, end), steps[1..], start, end))
  }

  ghost function After(g: Shared, steps: seq<Action>, start: int, end: int): (r: Shared)
    requires Safe(g, start, end) && IsRun(g, steps, start, end)
    ensures Safe(r, start, end)
    decreases |steps|
  {
    if steps == [] then g else
      StepKeepsSafe(g, steps[0], start, end);
      After(Next(g, steps[0], start, end), steps[1..], start, end)
  }

  lemma InitSafe(start: int, pool: nat)
    requires pool >= 2 * HEADER
    ensures Safe(Shared(Initial(start, pool), map[]), start, start + pool - HEADER)
  {
    InitialValid(start, pool);
  }

  /** After any interleaving from a new heap blocks tile the pool and free ones are merged and listed, every byte is accounted
      for, and once everything has been freed, the heap is as it was; what a thread has read of its block is still so. */
  lemma EveryRun(start: int, pool: nat, steps: seq<Action>)
    requires pool >= 2 * HEADER && Safe(Shared(Initial(start, pool), map[]), start, start + pool - HEADER)
    requires IsRun(Shared(Initial(start, pool), map[]), steps, start, start + pool - HEADER)
    ensures var end := start + pool - HEADER; var r := After(Shared(Initial(start, pool), map[]), steps, start, end);
      && Valid(r.v, start, end)
      && FreeBytes(r.v.blocks) + UsedBytes(r.v.blocks) + HEADER * |r.v.blocks| == pool
      && (Live(r.v) == {Block(end, 0, true)} ==> r.v == Initial(start, pool))
      && forall t :: t in r.calls && r.calls[t].Sized? ==> r.calls[t].b in r.v.blocks
  {
    var end := start + pool - HEADER;
    var r := After(Shared(Initial(start, pool), map[]), steps, start, end);
    hide IsRun, After, FreeBytes, UsedBytes;
    Conservation(r.v, start, pool);
    if Live(r.v) == {Block(end, 0, true)} { AllFreed(r.v, start, pool); }
    forall t | t in r.calls && r.calls[t].Sized?
      ensures r.calls[t].b in r.v.blocks
    {
      assert Claims(r.calls[t], r.calls[t].b);
      assert Usable(r.v, r.calls[t].b, end);
    }
  }

  /** A request that nothing interrupts between its test and its search does what the call does. */
  lemma TestThenFind(g: Shared, t: Tid, n: nat, start: int, end: int)
    requires Safe(g, start, end) && Enabled(g, Test(t, n), start, end)
    ensures var g' := Next(g, Test(t, n), start, end);
      && Named(g.v.blocks, g.v.free) && Safe(g', start, end)
      && (t in g'.calls <==> Rounded(n) < FreeBytes(g.v.blocks))
      && (t !in g'.calls ==> g'.v == HeapSpec.Alloc(g.v, Rounded(n)))
      && (t in g'.calls ==> Enabled(g', Find(t), start, end) && Next(g', Find(t), start, end).v == HeapSpec.Alloc(g.v, Rounded(n)))
  {
    ListedHas(g.v, start, end);
    StepKeepsSafe(g, Test(t, n), start, end);
    hide Valid, FirstFit, Chosen, AllocAt, FreeBytes, Rounded;
  }

  // ---- the test of available_size is made too early

  /** The locked part does what the whole call would do at that moment, except that it may serve the very last free bytes. */
  lemma LateExactly(v: View, start: int, end: int, want: nat)
    requires Valid(v, start, end) && Named(v.blocks, v.free)
    ensures Take(v, want) != HeapSpec.Alloc(v, want)
       <==> FreeBytes(v.blocks) == want && exists i :: 0 <= i < |v.blocks| && !v.blocks[i].used && v.blocks[i].size == want
  {
    SearchIsComplete(v, start, end, want);
    RefusedThoughItFits(v, start, end, want);
    if FirstFit(v, want).Some? {
      var b := Taken(v, start, end, want);
      assert Live(Take(v, want)) != Live(v);
    }
  }

  /** The heap of 1024 bytes with twelve of them in use, and with the rest in use as well. */
  function Twelve(): View {
    View([Block(4096, 12, true), Block(4132, 940, false), Block(5096, 0, true)], [4132])
  }

  function Full(): View {
    View([Block(4096, 12, true), Block(4132, 940, true), Block(5096, 0, true)], [])
  }

  lemma TakesTwelve()
    ensures Named(Initial(4096, 1024).blocks, Initial(4096, 1024).free) && Take(Initial(4096, 1024), 12) == Twelve()
    ensures FirstFit(Initial(4096, 1024), 12).Some? && FreeBytes(Initial(4096, 1024).blocks) == 976
  {
    var v := Initial(4096, 1024);
    InitialValid(4096, 1024);
    FreeBytesSmall(v.blocks[0], v.blocks[1], v.blocks[1]);
    var i := HeapSpec.Find(v.blocks, 4096);
    assert SizeAt(v, v.free[0]) == 976 && FirstFit(v, 12) == Some(0);
    assert Splice(v.blocks, 0, 1, Carve(v.blocks[0], 12)) == Carve(v.blocks[0], 12) + [v.blocks[1]];
  }

  lemma TakesTheRest()
    ensures Named(Twelve().blocks, Twelve().free) && Take(Twelve(), 940) == Full()
    ensures FirstFit(Twelve(), 940).Some? && Refuses(Twelve(), 940)
  {
    var v := Twelve();
    FreeBytesSmall(v.blocks[0], v.blocks[1], v.blocks[2]);
    assert v.blocks[1].addr == 4132;
    var i := HeapSpec.Find(v.blocks, 4132);
    assert SizeAt(v, v.free[0]) == 940 && FirstFit(v, 940) == Some(0);
    assert Splice(v.blocks, 1, 2, Carve(v.blocks[1], 940)) == Full().blocks;
  }

  /** Thread 1 is served, then thread 0. */
  lemma FindTwice(g: Shared, steps: seq<Action>)
    requires g == Shared(Initial(4096, 1024), map[0 := Passed(None, 940), 1 := Passed(None, 12)]) && Safe(g, 4096, 5096)
    requires steps == [Find(1), Find(0)]
    ensures IsRun(g, steps, 4096, 5096) && After(g, steps, 4096, 5096) == Shared(Full(), map[])
  {
    hide Initial, Take, FirstFit, FreeBytes, Refuses, Twelve, Full, Safe, Next, Enabled, IsRun, After;
    TakesTwelve();
    TakesTheRest();
    var g3 := FindTakes(g, 1, 12, 4096, 5096);
    var g4 := FindTakes(g3, 0, 940, 4096, 5096);
    assert g4.calls == map[];
    Done(g4, steps[2..], 4096, 5096);
    Then(g3, Find(0), steps[1..], 4096, 5096);
    Then(g, Find(1), steps, 4096, 5096);
  }

  /** A witness: thread 0 makes its test, thread 1 is served, and then thread 0 gets all that is left, which would have been
      refused to it had it made its test now. */
  lemma ServedLate()
    ensures var g, steps := Shared(Initial(4096, 1024), map[]), [Test(0, 940), Test(1, 12), Find(1), Find(0)];
      && Safe(g, 4096, 5096) && IsRun(g, steps, 4096, 5096) && After(g, steps, 4096, 5096) == Shared(Full(), map[])
    ensures Named(Twelve().blocks, Twelve().free) && Refuses(Twelve(), 940)
  {
    hide Initial, Take, FirstFit, FreeBytes, Refuses, Twelve, Full, Safe, Next, Enabled, IsRun, After;
    InitSafe(4096, 1024);
    TakesTwelve();
    TakesTheRest();
    var g0, steps := Shared(Initial(4096, 1024), map[]), [Test(0, 940), Test(1, 12), Find(1), Find(0)];
    var g1 := TestPasses(g0, 0, 940, 4096, 5096);
    var g2 := TestPasses(g1, 1, 12, 4096, 5096);
    FindTwice(g2, steps[2..]);
    Then(g1, Test(1, 12), steps[1..], 4096, 5096);
    Then(g0, Test(0, 940), steps, 4096, 5096);
  }

  lemma TestPasses(g: Shared, t: Tid, n: nat, start: int, end: int) returns (g': Shared)
    requires Safe(g, start, end) && t !in g.calls && n % WORD == 0 && MINIALLOC <= n < SPAN && n < FreeBytes(g.v.blocks)
    ensures Enabled(g, Test(t, n), start, end) && g' == Next(g, Test(t, n), start, end) && Safe(g', start, end)
    ensures g' == g.(calls := g.calls[t := Passed(None, n)])
  {
    StepKeepsSafe(g, Test(t, n), start, end);
    g' := Next(g, Test(t, n), start, end);
  }

  lemma FindTakes(g: Shared, t: Tid, want: nat, start: int, end: int) returns (g': Shared)
    requires Safe(g, start, end) && t in g.calls && g.calls[t] == Passed(None, want) && FirstFit(g.v, want).Some?
    ensures Enabled(g, Find(t), start, end) && g' == Next(g, Find(t), start, end) && Safe(g', start, end)
    ensures g' == Shared(Take(g.v, want), g.calls - {t})
  {
    StepKeepsSafe(g, Find(t), start, end);
    g' := Next(g, Find(t), start, end);
  }

  /** A run by its first step and the rest. */
  lemma Then(g: Shared, a: Action, steps: seq<Action>, start: int, end: int)
    requires Safe(g, start, end) && Enabled(g, a, start, end) && steps != [] && steps[0] == a
    requires Safe(Next(g, a, start, end), start, end) && IsRun(Next(g, a, start, end), steps[1..], start, end)
    ensures IsRun(g, steps, start, end)
    ensures After(g, steps, start, end) == After(Next(g, a, start, end), steps[1..], start, end)
  {
  }

  lemma Done(g: Shared, steps: seq<Action>, start: int, end: int)
    requires Safe(g, start, end) && steps == []
    ensures IsRun(g, steps, start, end) && After(g, steps, start, end) == g
  {
  }
}
