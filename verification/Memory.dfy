// The memory under the memheap allocator: one flat array of bytes, on which block
// headers are laid. A header is known field by field; writing payload bytes or a
// new header over it destroys it, and a header hides the bytes below it. Several heaps
// may lie in one memory.
module Memory {
  import opened Words
  import opened HeapSpec

  datatype Mem = Mem(
    next: map<int, int>, prev: map<int, int>,
    nextFree: map<int, int>, prevFree: map<int, int>,
    used: map<int, bool>,   // the USED bit of magic; presence of the key stands for an intact magic number
    pool: map<int, int>,
    ram: seq<byte>)

  /** The header at k does not overlap the n bytes at a. */
  predicate Apart(k: int, a: int, n: int) {
    k + HEADER <= a || a + n <= k
  }

  function Outside<T>(f: map<int, T>, a: int, n: int): (g: map<int, T>)
    ensures forall k :: k in g <==> k in f && Apart(k, a, n)
    ensures forall k :: k in g ==> g[k] == f[k]
  {
    map k | k in f && Apart(k, a, n) :: f[k]
  }

  /** m after the bytes [a, a + |bytes|) have been overwritten. */
  function Overwrite(m: Mem, a: int, bytes: seq<byte>): Mem
    requires 0 <= a && a + |bytes| <= |m.ram|
  {
    var n := |bytes|;
    Mem(Outside(m.next, a, n), Outside(m.prev, a, n), Outside(m.nextFree, a, n), Outside(m.prevFree, a, n),
        Outside(m.used, a, n), Outside(m.pool, a, n), m.ram[..a] + bytes + m.ram[a + n..])
  }

  function WithMagic(m: Mem, a: int, junk: seq<byte>): Mem
    requires 0 <= a && a + |junk| <= |m.ram|
  {
    var o := Overwrite(m, a, junk);
    o.(used := o.used[a := false])
  }

  /** Two memories agree on every header outside the pool [lo, hi) other than s, and on every byte outside it. */
  ghost predicate SameOutside(m: Mem, m': Mem, lo: int, hi: int, s: int) {
    && SameHeaders(m.next, m'.next, lo, hi, s)
    && SameHeaders(m.prev, m'.prev, lo, hi, s)
    && SameHeaders(m.nextFree, m'.nextFree, lo, hi, s)
    && SameHeaders(m.prevFree, m'.prevFree, lo, hi, s)
    && SameHeaders(m.used, m'.used, lo, hi, s)
    && SameHeaders(m.pool, m'.pool, lo, hi, s)
    && |m.ram| == |m'.ram|
    && forall a :: 0 <= a < |m.ram| && !(lo <= a < hi) ==> m.ram[a] == m'.ram[a]
  }

  ghost predicate SameHeaders<T>(f: map<int, T>, g: map<int, T>, lo: int, hi: int, s: int) {
    forall k :: k in f && k != s && Apart(k, lo, hi - lo) ==> k in g && g[k] == f[k]
  }

  class Ram {
    var m: Mem

    constructor (m: Mem)
      ensures this.m == m
    {
      this.m := m;
    }

    /** Stores the magic number of a new header; what the other header bytes held before is gone. */
    method NewMagic(a: int) returns (junk: seq<byte>)
      requires 0 <= a && a + HEADER <= |m.ram|
      modifies this
      ensures |junk| == HEADER && m == WithMagic(old(m), a, junk)
    {
      junk := *;
      if |junk| != HEADER {
        junk := seq(HEADER, i => 0);
      }
      m := WithMagic(m, a, junk);
    }

    method SetUsed(a: int, u: bool)
      requires a in m.used
      modifies this
      ensures m == old(m).(used := old(m).used[a := u])
    {
      m := m.(used := m.used[a := u]);
    }

    method SetPool(a: int, p: int)
      modifies this
      ensures m == old(m).(pool := old(m).pool[a := p])
    {
      m := m.(pool := m.pool[a := p]);
    }

    method SetNext(a: int, b: int)
      modifies this
      ensures m == old(m).(next := old(m).next[a := b])
    {
      m := m.(next := m.next[a := b]);
    }

    method SetPrev(a: int, b: int)
      modifies this
      ensures m == old(m).(prev := old(m).prev[a := b])
    {
      m := m.(prev := m.prev[a := b]);
    }

    method SetNextFree(a: int, b: int)
      modifies this
      ensures m == old(m).(nextFree := old(m).nextFree[a := b])
    {
      m := m.(nextFree := m.nextFree[a := b]);
    }

    method SetPrevFree(a: int, b: int)
      modifies this
      ensures m == old(m).(prevFree := old(m).prevFree[a := b])
    {
      m := m.(prevFree := m.prevFree[a := b]);
    }

    method Copy(dst: int, src: int, n: nat)
      requires 0 <= dst && dst + n <= |m.ram| && 0 <= src && src + n <= |m.ram|
      modifies this
      ensures m == Overwrite(old(m), dst, old(m).ram[src..src + n])
    {
      m := Overwrite(m, dst, m.ram[src..src + n]);
    }
  }

}
