// rt_malloc_align and rt_free_align of kservice.c on top of the system heap: the result is
// aligned, and the word in front of it leads back to the block it was cut from.
module AlignedAlloc {
  import opened Words
  import opened HeapSpec
  import opened HeapLaws
  import opened HeapTheorems
  import opened Memory
  import opened MemHeapLinks
  import opened SystemHeap

  // ---- block addresses stay word-aligned

  ghost predicate WordAligned(bs: seq<Block>) {
    forall i :: 0 <= i < |bs| ==> bs[i].addr % 4 == 0
  }

  lemma InitialAligned(start: int, pool: int)
    requires start % 4 == 0 && pool % 4 == 0
    ensures WordAligned(Initial(start, pool).blocks)
  {
  }

  lemma SpliceAligned(bs: seq<Block>, lo: nat, hi: nat, mid: seq<Block>)
    requires lo <= hi <= |bs| && WordAligned(bs) && WordAligned(mid)
    ensures WordAligned(Splice(bs, lo, hi, mid))
  {
    SpliceIndex(bs, lo, hi, mid);
  }

  lemma AllocAligned(v: View, want: nat)
    requires Named(v.blocks, v.free) && WordAligned(v.blocks) && want % 4 == 0
    ensures WordAligned(HeapSpec.Alloc(v, want).blocks)
  {
    if !Refuses(v, want) {
      var c := Chosen(v, want);
      SpliceAligned(v.blocks, c, c + 1, Carve(v.blocks[c], want));
    }
  }

  lemma FreeAligned(v: View, i: nat)
    requires i < |v.blocks| && WordAligned(v.blocks)
    ensures WordAligned(FreeAt(v, i).blocks)
  {
    SpliceAligned(v.blocks, FreeLo(v, i), FreeHi(v, i) + 1, [Joined(v, FreeLo(v, i), FreeHi(v, i))]);
  }

  lemma ReallocAligned(v: View, i: nat, want: nat)
    requires Named(v.blocks, v.free) && i + 1 < |v.blocks| && WordAligned(v.blocks) && want % 4 == 0
    ensures WordAligned(HeapSpec.Realloc(v, i, want).blocks)
  {
    hide Chosen, Refuses, HeapSpec.FirstFit;
    if GrowsInPlace(v, i, want) || Shrinks(v, i, want) {
      SpliceAligned(v.blocks, i, FreeHi(v, i) + 1, Resized(v, i, want));
    } else if !Stays(v, i, want) && !Refuses(v, want) {
      AllocAligned(v, want);
      hide HeapSpec.Alloc, FreeAt, WordAligned, MovedIndex;
      FreeAligned(HeapSpec.Alloc(v, want), MovedIndex(v, i, want));
    }
  }

  lemma ServeAligned(v: View, r: Request, start: int, end: int)
    requires HeapSpec.Valid(v, start, end) && Named(v.blocks, v.free) && WordAligned(v.blocks)
    ensures WordAligned(Serve(v, r).blocks)
  {
    hide WordAligned, HeapSpec.Alloc, FreeAt, HeapSpec.Realloc, Rounded;
    match r
    case Allocate(n) =>
      RoundedTwice(n);
      AllocAligned(v, Rounded(n));
    case Release(p) => if Points(v, p) { FreeAligned(v, BlockAt(v, p)); }
    case Reallocate(p, n) =>
      if Points(v, p) {
        RoundedTwice(n);
        FreeAligned(v, BlockAt(v, p));
        ReallocAligned(v, BlockAt(v, p), Rounded(n));
      }
  }

  lemma {:induction false} RunAligned(v: View, rs: seq<Request>, start: int, end: int)
    requires HeapSpec.Valid(v, start, end) && WordAligned(v.blocks)
    ensures WordAligned(Run(v, rs, start, end).blocks)
    decreases |rs|
  {
    hide WordAligned, HeapSpec.Valid, Serve;
    if rs != [] {
      ListedNamed(v, start, end);
      ServeAligned(v, rs[0], start, end);
      ServeKeepsValid(v, rs[0], start, end);
      RunAligned(Serve(v, rs[0]), rs[1..], start, end);
    }
  }

  /** Whatever is asked of it, a heap over a pool that begins at a word has all its blocks, hence all its payloads, at words. */
  lemma EveryRun(start: int, pool: nat, rs: seq<Request>)
    requires start % WORD == 0 && pool % WORD == 0 && pool >= 2 * HEADER
    ensures HeapSpec.Valid(Initial(start, pool), start, start + pool - HEADER)
    ensures WordAligned(Run(Initial(start, pool), rs, start, start + pool - HEADER).blocks)
  {
    InitialValid(start, pool);
    InitialAligned(start, pool);
    RunAligned(Initial(start, pool), rs, start, start + pool - HEADER);
  }

  // ---- arithmetic

  /** align_ptr, in 32 bits: strictly above ptr, so that the word in front of it belongs to the block. */
  function Raise(ptr: nat, align: nat): nat
    requires 0 < align <= SPAN
  {
    if And(ptr, align - 1) == 0 then (ptr + align) % SPAN else And((ptr + (align - 1)) % SPAN, Complement(align - 1))
  }

  lemma WordsApart(x: int, y: int, align: nat)
    requires align > 0 && align % WORD == 0 && x % WORD == 0 && y % align == 0 && x < y
    ensures x + WORD <= y
  {
    var q, m := y / align, align / WORD;
    assert y == WORD * (m * q);
  }

  /** Raise by remainders. */
  lemma RaiseRounds(ptr: nat, align: nat)
    requires PowerOfTwo(align) && 0 < align && ptr + align < SPAN
    ensures Raise(ptr, align) == if ptr % align == 0 then ptr + align else RoundUp(ptr, align)
  {
    Masks(ptr, align);
    RoundUpMasks(ptr, align);
    Fits32(ptr + align);
    Fits32(ptr + (align - 1));
    hide And, PowerOfTwo, RoundUp;
  }

  lemma NextMultiple(x: nat, align: nat)
    requires align > 0 && x % align == 0
    ensures (x + align) % align == 0
  {
    AddMultiple(x, align, align);
  }

  /** The raised address is aligned, leaves a word in front, and moves by at most align. */
  lemma RaiseFits(ptr: nat, align: nat)
    requires PowerOfTwo(align) && align % WORD == 0 && ptr % WORD == 0 && 0 < align && ptr + align < SPAN
    ensures Raise(ptr, align) % align == 0 && ptr + WORD <= Raise(ptr, align) <= ptr + align
  {
    RaiseRounds(ptr, align);
    hide Raise, RoundUp, PowerOfTwo;
    if ptr % align == 0 {
      NextMultiple(ptr, align);
    } else {
      RoundUpBounds(ptr, align);
    }
    WordsApart(ptr, Raise(ptr, align), align);
  }

  /** align_size, in 32 bits. */
  function Padded(size: nat, align: nat): nat {
    (AlignUp(size) + AlignUp(align)) % SPAN
  }

  /** It leaves room for the payload behind any raise of the pointer exactly if neither the rounding nor the sum wraps around. */
  lemma PaddedExactly(size: nat, align: nat)
    requires size < SPAN
    ensures Padded(size, align) >= AlignUp(align) + size <==> Unwrapped(size, align)
  {
  }

  lemma PaddedHolds(size: nat, align: nat)
    requires Unwrapped(size, align)
    ensures var want := Rounded(Padded(size, align));
      want >= Padded(size, align) >= AlignUp(align) + size && want % WORD == 0
  {
    RoundedTwice(Padded(size, align));
    PaddedExactly(size, align);
    hide Rounded, Unwrapped;
    assert Padded(size, align) <= SPAN - WORD by { SumOfWords(AlignUp(size), AlignUp(align)); }
  }

  lemma SumOfWords(x: nat, y: nat)
    requires x % WORD == 0 && y % WORD == 0
    ensures (x + y) % SPAN <= SPAN - WORD
  {
  }

  /** A witness: eight bytes less than 2^32, aligned to eight, are padded to nothing; a new heap serves twelve bytes for
      them, and the aligned address lies eight bytes behind the start of these. */
  lemma PaddedWraps()
    ensures Padded(SPAN - 8, 8) == 0
    ensures var v := Initial(4096, 1024);
      && Named(v.blocks, v.free) && !Refuses(v, Rounded(Padded(SPAN - 8, 8)))
      && HeapSpec.Alloc(v, Rounded(Padded(SPAN - 8, 8))).blocks[0] == Block(4096, 12, true)
      && Raise(4096 + HEADER, 8) == 4096 + HEADER + 8
  {
    ServedShort(4096);
    RaiseRounds(4096 + HEADER, 8);
  }

  predicate Unwrapped(size: nat, align: nat) {
    size <= SPAN - WORD && AlignUp(size) + AlignUp(align) < SPAN
  }

  /** The slack of the block that serves a wrapped request is too little for the payload. */
  lemma WrappedShort(size: nat, align: nat)
    requires size < SPAN && PowerOfTwo(AlignUp(align)) && !Unwrapped(size, align)
    ensures Rounded(Padded(size, align)) + HEADER + MINIALLOC < size
  {
    AtMostHalf(AlignUp(align));
    hide PowerOfTwo;
  }

  /** The payload of rt_malloc_align lies inside the block that serves it, with a word in front, exactly when the padded size
      does not wrap around. */
  lemma AlignedFits(v: View, start: int, end: int, size: nat, align: nat)
    requires HeapSpec.Valid(v, start, end) && Named(v.blocks, v.free) && WordAligned(v.blocks) && 0 <= start && end + HEADER <= SPAN
    requires size < SPAN && PowerOfTwo(AlignUp(align)) && !Refuses(v, Rounded(Padded(size, align)))
    ensures var want := Rounded(Padded(size, align)); var w, c := HeapSpec.Alloc(v, want), Chosen(v, want);
      && c < |w.blocks| && 0 < AlignUp(align) && 0 <= w.blocks[c].addr
      && var ptr := w.blocks[c].addr + HEADER; var r := Raise(ptr, AlignUp(align));
      ptr + WORD <= r && r + size <= w.blocks[c].End() <==> Unwrapped(size, align)
  {
    hide HeapSpec.Alloc, Rounded, Raise, PowerOfTwo, WordAligned, Refuses, Padded, Unwrapped;
    var want := Rounded(Padded(size, align));
    var c := ServedBlock(v, start, end, want);
    var b := HeapSpec.Alloc(v, want).blocks[c];
    ServedSize(v, start, end, want);
    AddressAligned(v.blocks, c);
    PowerPositive(AlignUp(align));
    if Unwrapped(size, align) {
      PaddedHolds(size, align);
      RaiseFits(b.addr + HEADER, AlignUp(align));
    } else {
      WrappedShort(size, align);
    }
  }

  /** The block that serves a request, where it lies and how large it is at most. */
  lemma ServedSize(v: View, start: int, end: int, want: nat)
    requires HeapSpec.Valid(v, start, end) && Named(v.blocks, v.free) && !Refuses(v, want)
    ensures HeapSpec.FirstFit(v, want).Some?
    ensures var w, c := HeapSpec.Alloc(v, want), Chosen(v, want);
      && c < |w.blocks| && c < |v.blocks| && w.blocks[c].addr == v.blocks[c].addr
      && want <= w.blocks[c].size < want + HEADER + MINIALLOC && start <= w.blocks[c].addr && w.blocks[c].End() <= end
  {
    var c := Chosen(v, want);
    ChosenFits(v, start, end, want);
    AllocIndex(v, c, want);
    if c > 0 { Ordered(v.blocks, start, end, 0, c); }
    Ordered(v.blocks, start, end, c, |v.blocks| - 1);
  }

  // ---- words

  function WordBytes(p: nat): (b: seq<byte>)
    requires p < SPAN
    ensures |b| == 4
  {
    [p % 256, p / 256 % 256, p / 65536 % 256, p / 16777216]
  }

  function WordAt(ram: seq<byte>, a: nat): nat
    requires a + WORD <= |ram|
  {
    (ram[a] as int) + 256 * (ram[a + 1] as int) + 65536 * (ram[a + 2] as int) + 16777216 * (ram[a + 3] as int)
  }

  lemma WordReadsBack(ram: seq<byte>, a: nat, p: nat)
    requires p < SPAN && a + WORD <= |ram| && ram[a..a + WORD] == WordBytes(p)
    ensures WordAt(ram, a) == p
  {
    assert ram[a] == ram[a..a + WORD][0] && ram[a + 1] == ram[a..a + WORD][1];
    assert ram[a + 2] == ram[a..a + WORD][2] && ram[a + 3] == ram[a..a + WORD][3];
    Digits(p);
  }

  lemma Digits(p: nat)
    ensures p % 256 + 256 * (p / 256 % 256) + 65536 * (p / 65536 % 256) + 16777216 * (p / 16777216) == p
  {
    assert p / 256 / 256 == p / 65536 && p / 65536 / 256 == p / 16777216;
  }

  // ---- the calls

  /** A caller writes into the payload of its block c of heap k. */
  method Store(sys: System, a: int, bytes: seq<byte>, ghost k: nat, ghost c: nat)
    requires sys.Valid() && k < |sys.heaps| && c < |sys.heaps[k].v.blocks| - 1 && sys.heaps[k].v.blocks[c].used
    requires sys.heaps[k].v.blocks[c].addr + HEADER <= a && a + |bytes| <= sys.heaps[k].v.blocks[c].End()
    modifies sys.memory
    ensures sys.Valid() && 0 <= a && a + |bytes| <= |sys.memory.m.ram| == |old(sys.memory.m).ram|
    ensures sys.memory.m == Overwrite(old(sys.memory.m), a, bytes) && sys.memory.m.ram[a..a + |bytes|] == bytes
    ensures KeepsAllBut(old(sys.memory.m).ram, sys.memory.m.ram, sys.Views(), k, c)
  {
    hide HeapSpec.Valid, Holds, Placed, SameOutside, KeepsPayload, Separate;
    ghost var h, m := sys.heaps[k], sys.memory.m;
    PlacedBounds(m, h.start, h.End(), h.sentinel);
    PayloadApart(h.v, h.start, h.End(), h.sentinel, c, a, |bytes|);
    ListedNamed(h.v, h.start, h.End());
    OverwriteHolds(m, h.id, h.sentinel, h.v, a, bytes);
    OverwriteOutside(m, a, bytes, h.start, h.End(), h.sentinel);
    StillPlaced(m, Overwrite(m, a, bytes), h.start, h.End(), h.sentinel);
    OverwriteKeeps(m, Overwrite(m, a, bytes), h.v, h.start, h.End(), c, a, bytes);
    sys.memory.m := Overwrite(sys.memory.m, a, bytes);
    sys.Others(k);
    KeepsTheRest(m.ram, sys.memory.m.ram, sys.Views(), k, c);
  }

  lemma PlacedBounds(m: Mem, start: int, end: int, sentinel: int)
    requires Placed(m, start, end, sentinel)
    ensures NULL < start && end + HEADER <= |m.ram| && Memory.Apart(sentinel, start, end + HEADER - start)
  {
  }

  lemma ListedNamed(v: View, start: int, end: int)
    requires HeapSpec.Valid(v, start, end)
    ensures forall f :: f in v.free ==> HasBlock(v.blocks, f)
  {
  }

  lemma KeepsTheRest(ram: seq<byte>, ram': seq<byte>, vs: seq<View>, k: nat, c: nat)
    requires k < |vs| && c < |vs[k].blocks|
    requires forall j :: 0 <= j < |vs| && j != k ==> KeepsPayload(ram, ram', vs[j].blocks)
    requires forall j :: 0 <= j < |vs[k].blocks| && j != c ==> SameBytes(ram, ram', vs[k].blocks[j].addr + HEADER, vs[k].blocks[j].size)
    requires |ram| == |ram'|
    ensures KeepsAllBut(ram, ram', vs, k, c)
  {
  }

  /** The block that serves a request, after it has. */
  lemma ServedBlock(v: View, start: int, end: int, want: nat) returns (c: nat)
    requires HeapSpec.Valid(v, start, end) && Named(v.blocks, v.free) && !Refuses(v, want)
    ensures HeapSpec.FirstFit(v, want).Some? && c == Chosen(v, want)
    ensures var w := HeapSpec.Alloc(v, want);
      && c < |w.blocks| - 1 && w.blocks[c].used && w.blocks[c].addr == v.blocks[c].addr && w.blocks[c].size >= want
  {
    c := Chosen(v, want);
    ChosenFits(v, start, end, want);
    AllocIndex(v, c, want);
  }

  /** Whatever keeps the payloads of a heap keeps the size of the memory. */
  lemma SameMemory(ram: seq<byte>, ram': seq<byte>, vs: seq<View>, k: nat, start: int, end: int)
    requires KeepsAll(ram, ram', vs) && k < |vs| && HeapSpec.Valid(vs[k], start, end)
    ensures |ram| == |ram'|
  {
    var tailer := |vs[k].blocks| - 1;
    assert vs[k].blocks[tailer].used;
    assert KeepsPayload(ram, ram', vs[k].blocks);
  }

  ghost predicate AllWordAligned(vs: seq<View>) {
    forall j :: 0 <= j < |vs| ==> WordAligned(vs[j].blocks)
  }

  /** r is an aligned payload of size bytes in block c of v, and the word in front of it is the block's own payload address. */
  ghost predicate AlignedIn(ram: seq<byte>, v: View, c: nat, r: int, size: nat, align: nat) {
    && align > 0 && r % align == 0
    && c < |v.blocks| - 1 && v.blocks[c].used
    && (var ptr := v.blocks[c].addr + HEADER; ptr + WORD <= r && r + size <= ptr + v.blocks[c].size)
    && WORD <= r <= |ram| && WordAt(ram, r - WORD) == v.blocks[c].addr + HEADER
  }

  /** rt_malloc_align */
  method MallocAlign(sys: System, size: nat, align: nat) returns (r: int, ghost k: nat, ghost c: nat)
    requires sys.Valid() && |sys.memory.m.ram| <= SPAN && AllWordAligned(sys.Views()) && PowerOfTwo(AlignUp(align))
    requires Unwrapped(size, align)
    modifies sys.memory, sys.heaps
    ensures sys.Valid() && AllNamed(old(sys.Views())) && AllWordAligned(sys.Views())
    ensures var vs := old(sys.Views()); var want := Rounded(Padded(size, align));
      && (r == NULL <==> AllRefuse(vs, want))
      && (r == NULL ==> sys.Views() == vs && sys.memory.m == old(sys.memory.m))
      && KeepsAll(old(sys.memory.m).ram, sys.memory.m.ram, vs)
      && (r != NULL ==>
        && Serves(vs, sys.main, k, want) && sys.Views() == vs[k := HeapSpec.Alloc(vs[k], want)] && c == Chosen(vs[k], want)
        && AlignedIn(sys.memory.m.ram, sys.Views()[k], c, r, size, AlignUp(align)))
  {
    hide HeapSpec.Valid, Holds, Placed, KeepsAll, KeepsPayload, Separate, Refuses, HeapSpec.Alloc, WordAligned, KeepsAllBut, Raise,
      Overwrite, WordAt, WordBytes, Rounded, System.Registered, And, PowerOfTwo, AlignUp, Padded, Unwrapped;
    var align' := AlignUp(align);
    var alignSize := Padded(size, align);
    ghost var vs, want := sys.Views(), Rounded(alignSize);
    PaddedHolds(size, align);
    sys.NamedViews();
    AllValid(sys, vs);
    var ptr;
    ptr, k := sys.Malloc(alignSize);
    c := 0;
    if ptr == NULL {
      return NULL, k, c;
    }
    SameMemory(old(sys.memory.m).ram, sys.memory.m.ram, vs, k, sys.heaps[k].start, sys.heaps[k].End());
    c := ServedBlock(vs[k], sys.heaps[k].start, sys.heaps[k].End(), want);
    AlignedViews(vs, k, want);
    PowerPositive(align');
    AddressAligned(sys.Views()[k].blocks, c);
    BlockPlaced(sys, k, c);
    RaiseFits(ptr, align');
    var alignPtr := Raise(ptr, align');
    ghost var ram1 := sys.memory.m.ram;
    Store(sys, alignPtr - WORD, WordBytes(ptr), k, c);
    StoreKeeps(old(sys.memory.m).ram, ram1, sys.memory.m.ram, vs, k, want, sys.heaps[k].start, sys.heaps[k].End());
    WordReadsBack(sys.memory.m.ram, alignPtr - WORD, ptr);
    r := alignPtr;
  }

  /** The saved word spoils no block that was live before the request. */
  lemma StoreKeeps(ram: seq<byte>, ram1: seq<byte>, ram2: seq<byte>, vs: seq<View>, k: nat, want: nat, start: int, end: int)
    requires k < |vs| && AllNamed(vs) && HeapSpec.Valid(vs[k], start, end) && !Refuses(vs[k], want) && KeepsAll(ram, ram1, vs)
    requires Chosen(vs[k], want) < |HeapSpec.Alloc(vs[k], want).blocks|
    requires KeepsAllBut(ram1, ram2, vs[k := HeapSpec.Alloc(vs[k], want)], k, Chosen(vs[k], want))
    ensures KeepsAll(ram, ram2, vs)
  {
    hide HeapSpec.Valid, HeapSpec.Alloc, Chosen, KeepsPayload, SameBytes;
    var vs' := vs[k := HeapSpec.Alloc(vs[k], want)];
    forall j | 0 <= j < |vs|
      ensures KeepsPayload(ram, ram2, vs[j].blocks)
    {
      if j == k {
        OldBlocksKept(ram1, ram2, vs[k], start, end, want);
      } else {
        assert KeepsPayload(ram1, ram2, vs'[j].blocks);
      }
      assert KeepsPayload(ram, ram1, vs[j].blocks);
      KeepsTrans(ram, ram1, ram2, vs[j].blocks);
    }
  }

  lemma OldBlocksKept(ram1: seq<byte>, ram2: seq<byte>, v: View, start: int, end: int, want: nat)
    requires HeapSpec.Valid(v, start, end) && Named(v.blocks, v.free) && !Refuses(v, want)
    requires var w := HeapSpec.Alloc(v, want); Chosen(v, want) < |w.blocks| && KeepsOthers(ram1, ram2, w.blocks, Chosen(v, want), 0)
    ensures KeepsPayload(ram1, ram2, v.blocks)
  {
    hide HeapSpec.Alloc, Chosen;
    forall i | 0 <= i < |v.blocks| && v.blocks[i].used
      ensures SameBytes(ram1, ram2, v.blocks[i].addr + HEADER, v.blocks[i].size)
    {
      if i < |v.blocks| - 1 {
        AllocKeepsBlock(v, start, end, i, want);
        assert HeapSpec.Alloc(v, want).blocks[MovedIndex(v, i, want)] == v.blocks[i];
      }
    }
  }

  lemma AddressAligned(bs: seq<Block>, c: nat)
    requires WordAligned(bs) && c < |bs|
    ensures bs[c].addr % 4 == 0
  {
  }

  lemma AlignedViews(vs: seq<View>, k: nat, want: nat)
    requires k < |vs| && AllWordAligned(vs) && AllNamed(vs) && want % 4 == 0
    ensures AllWordAligned(vs[k := HeapSpec.Alloc(vs[k], want)])
  {
    AllocAligned(vs[k], want);
  }

  lemma AllValid(sys: System, vs: seq<View>)
    requires sys.Valid() && vs == sys.Views()
    ensures forall j :: 0 <= j < |vs| ==> HeapSpec.Valid(vs[j], sys.heaps[j].start, sys.heaps[j].End())
  {
  }

  lemma BlockPlaced(sys: System, k: nat, c: nat)
    requires sys.Valid() && k < |sys.heaps| && c < |sys.heaps[k].v.blocks| - 1
    ensures var b := sys.heaps[k].v.blocks[c]; 0 < b.addr && b.End() + HEADER <= |sys.memory.m.ram|
  {
    var h := sys.heaps[k];
    OwnBlock(h.v, h.start, h.End(), c);
  }

  /** rt_free_align on what rt_malloc_align has returned: the block it was cut from is freed. */
  method FreeAlign(sys: System, r: int, ghost k: nat, ghost c: nat, ghost size: nat, ghost align: nat)
    requires sys.Valid() && k < |sys.heaps| && AlignedIn(sys.memory.m.ram, sys.heaps[k].v, c, r, size, align)
    modifies sys.memory, sys.heaps
    ensures sys.Valid() && c < |old(sys.Views())[k].blocks| && sys.Views() == old(sys.Views())[k := FreeAt(old(sys.Views())[k], c)]
    ensures sys.memory.m.ram == old(sys.memory.m.ram)
  {
    hide HeapSpec.Valid, Holds, Placed, Separate, WordAt, System.Registered, FreeAt;
    var realPtr := WordAt(sys.memory.m.ram, r - WORD);
    HeapNow(sys, k);
    PointsAt(sys.heaps[k].v, sys.heaps[k].start, sys.heaps[k].End(), c, realPtr);
    BlockPlaced(sys, k, c);
    assert InUse(sys.heaps[k].v, c, realPtr);
    assert sys.heaps[k].Owned(realPtr);
    sys.Free(realPtr, k);
  }

  lemma HeapNow(sys: System, k: nat)
    requires sys.Valid() && k < |sys.heaps|
    ensures HeapSpec.Valid(sys.heaps[k].v, sys.heaps[k].start, sys.heaps[k].End())
  {
  }
}
