// The page allocator of slab.c: an address-ordered list of runs of free pages, threaded
// through the first page of each run.
module SlabPages {

  const NIL := -1   // RT_NULL

  /** n free pages from page number at on. */
  datatype Run = Run(at: nat, n: nat)
  {
    function End(): nat {
      at + n
    }
  }

  // ---- lists of runs

  ghost predicate Gap(rs: seq<Run>, i: nat)
    requires i + 1 < |rs|
  {
    rs[i].End() < rs[i + 1].at
  }

  /** In address order, no run empty, and no two that overlap or touch. */
  ghost predicate Canonical(rs: seq<Run>) {
    && (forall i :: 0 <= i < |rs| ==> rs[i].n > 0)
    && (forall i {:trigger Gap(rs, i)} :: 0 <= i && i + 1 < |rs| ==> Gap(rs, i))
  }

  ghost predicate Covers(r: Run, p: nat) {
    r.at <= p < r.End()
  }

  /** Page p is free. */
  ghost predicate In(rs: seq<Run>, p: nat) {
    exists i :: 0 <= i < |rs| && Covers(rs[i], p)
  }

  lemma {:induction false} Ascending(rs: seq<Run>, i: nat, j: nat)
    requires Canonical(rs) && i < j < |rs|
    ensures rs[i].End() < rs[j].at
    decreases j - i
  {
    assert Gap(rs, j - 1);
    if i < j - 1 { Ascending(rs, i, j - 1); }
  }

  /** A stretch of runs is replaced; what lies outside keeps its place. */
  lemma Positions(rs: seq<Run>, lo: nat, hi: nat, mid: seq<Run>)
    requires lo <= hi <= |rs|
    ensures var r := rs[..lo] + mid + rs[hi..];
      && |r| == |rs| - (hi - lo) + |mid|
      && (forall j :: 0 <= j < lo ==> r[j] == rs[j])
      && (forall j :: 0 <= j < |mid| ==> r[lo + j] == mid[j])
      && (forall j :: lo + |mid| <= j < |r| ==> r[j] == rs[j - |mid| + (hi - lo)])
  {
  }

  lemma InReplaced(rs: seq<Run>, lo: nat, hi: nat, mid: seq<Run>, p: nat)
    requires lo <= hi <= |rs|
    ensures In(rs[..lo] + mid + rs[hi..], p) <==> In(rs[..lo], p) || In(mid, p) || In(rs[hi..], p)
  {
    InConcat(rs[..lo] + mid, rs[hi..], p);
    InConcat(rs[..lo], mid, p);
  }

  lemma InConcat(xs: seq<Run>, ys: seq<Run>, p: nat)
    ensures In(xs + ys, p) <==> In(xs, p) || In(ys, p)
  {
    if i :| 0 <= i < |xs + ys| && Covers((xs + ys)[i], p) {
      if i < |xs| { assert Covers(xs[i], p); } else { assert Covers(ys[i - |xs|], p); }
    }
    if i :| 0 <= i < |xs| && Covers(xs[i], p) { assert Covers((xs + ys)[i], p); }
    if i :| 0 <= i < |ys| && Covers(ys[i], p) { assert Covers((xs + ys)[|xs| + i], p); }
  }

  ghost predicate FitsBetween(rs: seq<Run>, lo: nat, hi: nat, mid: seq<Run>)
    requires lo <= hi <= |rs|
  {
    |mid| == 1 ==> mid[0].n > 0 && (lo > 0 ==> rs[lo - 1].End() < mid[0].at) && (hi < |rs| ==> mid[0].End() < rs[hi].at)
  }

  lemma GapReplaced(rs: seq<Run>, lo: nat, hi: nat, mid: seq<Run>, r: seq<Run>, j: nat)
    requires Canonical(rs) && lo <= hi <= |rs| && |mid| <= 1 && FitsBetween(rs, lo, hi, mid)
    requires |r| == |rs| - (hi - lo) + |mid| && j + 1 < |r|
    requires forall i :: 0 <= i < lo ==> r[i] == rs[i]
    requires forall i :: 0 <= i < |mid| ==> r[lo + i] == mid[i]
    requires forall i :: lo + |mid| <= i < |r| ==> r[i] == rs[i - |mid| + (hi - lo)]
    ensures Gap(r, j)
  {
    if j + 1 < lo {
      assert Gap(rs, j);
    } else if j >= lo + |mid| {
      assert Gap(rs, j - |mid| + (hi - lo));
    } else if |mid| == 0 && lo > 0 && hi < |rs| {
      Ascending(rs, lo - 1, hi);
    }
  }

  /** At most one run of replacement keeps a canonical list canonical if it fits between its neighbours. */
  lemma CanonicalReplaced(rs: seq<Run>, lo: nat, hi: nat, mid: seq<Run>)
    requires Canonical(rs) && lo <= hi <= |rs| && |mid| <= 1 && FitsBetween(rs, lo, hi, mid)
    ensures Canonical(rs[..lo] + mid + rs[hi..])
  {
    Positions(rs, lo, hi, mid);
    var r := rs[..lo] + mid + rs[hi..];
    hide Gap;
    forall j | 0 <= j && j + 1 < |r|
      ensures Gap(r, j)
    {
      GapReplaced(rs, lo, hi, mid, r, j);
    }
  }

  // ---- the set of free pages determines the list

  lemma InTail(rs: seq<Run>, p: nat)
    requires Canonical(rs) && rs != []
    ensures Canonical(rs[1..])
    ensures In(rs, p) <==> Covers(rs[0], p) || In(rs[1..], p)
    ensures In(rs[1..], p) ==> p > rs[0].End()
  {
    assert rs == [rs[0]] + rs[1..];
    InConcat([rs[0]], rs[1..], p);
    assert In([rs[0]], p) <==> Covers(rs[0], p) by { assert [rs[0]][0] == rs[0]; }
    forall j | 0 <= j && j + 1 < |rs[1..]|
      ensures Gap(rs[1..], j)
    {
      assert Gap(rs, j + 1);
    }
    if i :| 0 <= i < |rs[1..]| && Covers(rs[1..][i], p) {
      Ascending(rs, 0, i + 1);
    }
  }

  lemma FirstPage(rs: seq<Run>, ys: seq<Run>)
    requires Canonical(rs) && Canonical(ys) && rs != [] && forall p: nat :: In(rs, p) ==> In(ys, p)
    ensures ys != [] && ys[0].at <= rs[0].at
  {
    assert Covers(rs[0], rs[0].at);
    assert In(rs, rs[0].at);
    InTail(ys, rs[0].at);
  }

  lemma FirstLength(xs: seq<Run>, ys: seq<Run>)
    requires Canonical(xs) && Canonical(ys) && xs != [] && ys != [] && xs[0].at == ys[0].at
    requires forall p: nat :: In(xs, p) ==> In(ys, p)
    ensures xs[0].n <= ys[0].n
  {
    if xs[0].n > ys[0].n {
      var p := ys[0].End();
      assert Covers(xs[0], p);
      assert In(xs, p);
      InTail(ys, p);
    }
  }

  /** Two canonical lists with the same free pages are the same list. */
  lemma {:induction false} Determined(xs: seq<Run>, ys: seq<Run>)
    requires Canonical(xs) && Canonical(ys) && forall p: nat :: In(xs, p) <==> In(ys, p)
    ensures xs == ys
  {
    if xs == [] || ys == [] {
      if xs != [] { FirstPage(xs, ys); }
      if ys != [] { FirstPage(ys, xs); }
    } else {
      FirstPage(xs, ys);
      FirstPage(ys, xs);
      FirstLength(xs, ys);
      FirstLength(ys, xs);
      forall p: nat
        ensures Canonical(xs[1..]) && Canonical(ys[1..]) && (In(xs[1..], p) <==> In(ys[1..], p))
      {
        InTail(xs, p);
        InTail(ys, p);
      }
      assert Canonical(xs[1..]) by { InTail(xs, 0); }
      assert Canonical(ys[1..]) by { InTail(ys, 0); }
      Determined(xs[1..], ys[1..]);
      assert xs == [xs[0]] + xs[1..];
    }
  }

  // ---- rt_page_alloc

  function FirstFit(rs: seq<Run>, k: nat, npages: nat): (i: nat)
    requires k <= |rs|
    ensures k <= i <= |rs|
    ensures forall j :: k <= j < i ==> rs[j].n < npages
    ensures i < |rs| ==> rs[i].n >= npages
    decreases |rs| - k
  {
    if k == |rs| || rs[k].n >= npages then k else FirstFit(rs, k + 1, npages)
  }

  function AllocAt(rs: seq<Run>, k: nat, npages: nat): seq<Run>
    requires k < |rs| && rs[k].n >= npages
  {
    if rs[k].n > npages then rs[..k] + [Run(rs[k].at + npages, rs[k].n - npages)] + rs[k + 1..]
    else rs[..k] + rs[k + 1..]
  }

  /** The pages [a, a + n) are all free. */
  ghost predicate AllFree(rs: seq<Run>, a: nat, n: nat) {
    forall p: nat :: a <= p < a + n ==> In(rs, p)
  }

  lemma InRun(rs: seq<Run>, i: nat, p: nat)
    requires i < |rs| && Covers(rs[i], p)
    ensures In(rs, p)
  {
  }

  /** Taking pages from run k removes exactly those pages from the free ones. */
  lemma AllocTakes(rs: seq<Run>, k: nat, npages: nat, p: nat)
    requires Canonical(rs) && k < |rs| && rs[k].n >= npages && npages > 0
    ensures Canonical(AllocAt(rs, k, npages))
    ensures In(AllocAt(rs, k, npages), p) <==> In(rs, p) && !(rs[k].at <= p < rs[k].at + npages)
  {
    var mid := if rs[k].n > npages then [Run(rs[k].at + npages, rs[k].n - npages)] else [];
    AllocIs(rs, k, npages, mid);
    if k > 0 { Ascending(rs, k - 1, k); }
    if k + 1 < |rs| { Ascending(rs, k, k + 1); }
    CanonicalReplaced(rs, k, k + 1, mid);
    InReplaced(rs, k, k + 1, mid, p);
    InReplaced(rs, k, k + 1, [rs[k]], p);
    Around(rs, k);
    InOne(rs[k], p);
    hide Canonical, In, AllocAt;
    if mid != [] { InOne(mid[0], p); }
    OutsideRun(rs, k, p);
  }

  lemma AllocIs(rs: seq<Run>, k: nat, npages: nat, mid: seq<Run>)
    requires k < |rs| && rs[k].n >= npages
    requires mid == if rs[k].n > npages then [Run(rs[k].at + npages, rs[k].n - npages)] else []
    ensures AllocAt(rs, k, npages) == rs[..k] + mid + rs[k + 1..]
  {
  }

  lemma Around(rs: seq<Run>, k: nat)
    requires k < |rs|
    ensures rs == rs[..k] + [rs[k]] + rs[k + 1..]
  {
  }

  lemma InOne(r: Run, p: nat)
    ensures In([r], p) <==> Covers(r, p)
  {
    assert [r][0] == r;
  }

  lemma OutsideRun(rs: seq<Run>, k: nat, p: nat)
    requires Canonical(rs) && k < |rs|
    ensures In(rs[..k], p) ==> p < rs[k].at
    ensures In(rs[k + 1..], p) ==> p > rs[k].End()
  {
    if i :| 0 <= i < |rs[..k]| && Covers(rs[..k][i], p) { Ascending(rs, i, k); }
    var tail := rs[k + 1..];
    if i :| 0 <= i < |tail| && Covers(tail[i], p) { Ascending(rs, k, k + 1 + i); }
  }

  /** Contiguous free pages lie inside one run. */
  lemma {:induction false} OneRun(rs: seq<Run>, a: nat, n: nat) returns (i: nat)
    requires Canonical(rs) && n > 0 && AllFree(rs, a, n)
    ensures i < |rs| && rs[i].at <= a && a + n <= rs[i].End()
    decreases n
  {
    if n == 1 {
      assert In(rs, a);
      i :| 0 <= i < |rs| && Covers(rs[i], a);
    } else {
      i := OneRun(rs, a, n - 1);
      var p := a + n - 1;
      assert In(rs, p);
      var j :| 0 <= j < |rs| && Covers(rs[j], p);
      if i < j { Ascending(rs, i, j); }
      if j < i { Ascending(rs, j, i); }
    }
  }

  /** rt_page_alloc fails exactly when no contiguous pages are free, and otherwise takes the lowest possible ones. */
  lemma AllocFindsLowest(rs: seq<Run>, npages: nat)
    requires Canonical(rs) && npages > 0
    ensures var k := FirstFit(rs, 0, npages);
      && (k == |rs| <==> forall a: nat :: !AllFree(rs, a, npages))
      && (k < |rs| ==> AllFree(rs, rs[k].at, npages) && forall a: nat :: AllFree(rs, a, npages) ==> rs[k].at <= a)
  {
    var k := FirstFit(rs, 0, npages);
    if k < |rs| {
      forall p: nat | rs[k].at <= p < rs[k].at + npages
        ensures In(rs, p)
      {
        InRun(rs, k, p);
      }
      assert AllFree(rs, rs[k].at, npages);
    }
    forall a: nat | AllFree(rs, a, npages)
      ensures k < |rs| && rs[k].at <= a
    {
      var i := OneRun(rs, a, npages);
      if k < i { Ascending(rs, k, i); }
    }
  }

  // ---- rt_page_free

  /** Where the search of rt_page_free stops: a run that touches the freed pages, or the first one behind them. */
  predicate Stops(r: Run, a: nat, n: nat) {
    r.End() == a || r.at >= a + n
  }

  function StopAt(rs: seq<Run>, k: nat, a: nat, n: nat): (i: nat)
    requires k <= |rs|
    ensures k <= i <= |rs|
    ensures forall j :: k <= j < i ==> !Stops(rs[j], a, n)
    ensures i < |rs| ==> Stops(rs[i], a, n)
    decreases |rs| - k
  {
    if k == |rs| || Stops(rs[k], a, n) then k else StopAt(rs, k + 1, a, n)
  }

  /** How many runs the freed pages absorb at slot k. */
  function Absorbs(rs: seq<Run>, k: nat, a: nat, n: nat): (m: nat)
    requires k <= |rs|
    ensures k + m <= |rs|
  {
    if k < |rs| && rs[k].End() == a then if k + 1 < |rs| && a + n == rs[k + 1].at then 2 else 1
    else if k < |rs| && rs[k].at == a + n then 1
    else 0
  }

  function Merged(rs: seq<Run>, k: nat, a: nat, n: nat): Run
    requires k <= |rs|
  {
    if k < |rs| && rs[k].End() == a then
      if k + 1 < |rs| && a + n == rs[k + 1].at then Run(rs[k].at, rs[k].n + n + rs[k + 1].n) else Run(rs[k].at, rs[k].n + n)
    else if k < |rs| && rs[k].at == a + n then Run(a, rs[k].n + n)
    else Run(a, n)
  }

  function FreeAt(rs: seq<Run>, k: nat, a: nat, n: nat): seq<Run>
    requires k <= |rs|
  {
    rs[..k] + [Merged(rs, k, a, n)] + rs[k + Absorbs(rs, k, a, n)..]
  }

  function Free(rs: seq<Run>, a: nat, n: nat): seq<Run> {
    FreeAt(rs, StopAt(rs, 0, a, n), a, n)
  }

  ghost predicate NoneFree(rs: seq<Run>, a: nat, n: nat) {
    forall p: nat :: a <= p < a + n ==> !In(rs, p)
  }

  /** What rt_page_free asserts on its way: allocated pages lie before or behind every run. */
  lemma BeforeOrBehind(rs: seq<Run>, a: nat, n: nat, i: nat)
    requires Canonical(rs) && n > 0 && NoneFree(rs, a, n) && i < |rs|
    ensures rs[i].at >= a + n || rs[i].End() <= a
  {
    if rs[i].at < a + n && rs[i].End() > a {
      var p := if rs[i].at < a then a else rs[i].at;
      assert Covers(rs[i], p);
      InRun(rs, i, p);
    }
  }

  /** The runs before the slot end below the freed pages, with a gap; those behind it start above. */
  lemma StopSplits(rs: seq<Run>, a: nat, n: nat)
    requires Canonical(rs) && n > 0 && NoneFree(rs, a, n)
    ensures var k := StopAt(rs, 0, a, n);
      && (forall j :: 0 <= j < k ==> rs[j].End() < a)
      && (k < |rs| && rs[k].End() != a ==> a + n <= rs[k].at)
      && (k + 1 < |rs| && rs[k].End() == a ==> a + n <= rs[k + 1].at)
  {
    var k := StopAt(rs, 0, a, n);
    forall j | 0 <= j < k
      ensures rs[j].End() < a
    {
      BeforeOrBehind(rs, a, n, j);
    }
    if k + 1 < |rs| {
      Ascending(rs, k, k + 1);
      BeforeOrBehind(rs, a, n, k + 1);
    }
  }

  lemma ThreeParts(rs: seq<Run>, lo: nat, hi: nat)
    requires lo <= hi <= |rs|
    ensures rs == rs[..lo] + rs[lo..hi] + rs[hi..]
  {
  }

  /** The freed pages, merged, fit where they go. */
  lemma MergedFits(rs: seq<Run>, a: nat, n: nat)
    requires Canonical(rs) && n > 0 && NoneFree(rs, a, n)
    ensures var k := StopAt(rs, 0, a, n);
      FitsBetween(rs, k, k + Absorbs(rs, k, a, n), [Merged(rs, k, a, n)])
  {
    hide In, NoneFree, StopAt;
    var k := StopAt(rs, 0, a, n);
    StopSplits(rs, a, n);
    if k + 1 < |rs| { Ascending(rs, k, k + 1); }
    if k + 2 < |rs| { Ascending(rs, k + 1, k + 2); }
    if k > 0 && k < |rs| { Ascending(rs, k - 1, k); }
  }

  /** Freeing adds exactly the freed pages, merged on both sides. */
  lemma FreeAdds(rs: seq<Run>, a: nat, n: nat, p: nat)
    requires Canonical(rs) && n > 0 && NoneFree(rs, a, n)
    ensures Canonical(Free(rs, a, n))
    ensures In(Free(rs, a, n), p) <==> In(rs, p) || a <= p < a + n
  {
    hide In, NoneFree, StopAt, FitsBetween;
    var k := StopAt(rs, 0, a, n);
    MergedFits(rs, a, n);
    var hi, r := k + Absorbs(rs, k, a, n), Merged(rs, k, a, n);
    CanonicalReplaced(rs, k, hi, [r]);
    InReplaced(rs, k, hi, [r], p);
    InReplaced(rs, k, hi, rs[k..hi], p);
    ThreeParts(rs, k, hi);
    InOne(r, p);
    MergedPages(rs, k, a, n, p);
  }

  lemma MergedPages(rs: seq<Run>, k: nat, a: nat, n: nat, p: nat)
    requires k <= |rs| && forall i :: 0 <= i < |rs| ==> rs[i].n > 0
    ensures Covers(Merged(rs, k, a, n), p) <==> In(rs[k..k + Absorbs(rs, k, a, n)], p) || a <= p < a + n
  {
    var m := Absorbs(rs, k, a, n);
    if m == 1 {
      assert rs[k..k + 1] == [rs[k]];
      InOne(rs[k], p);
    } else if m == 2 {
      assert rs[k..k + 2] == [rs[k]] + [rs[k + 1]];
      InConcat([rs[k]], [rs[k + 1]], p);
      InOne(rs[k], p);
      InOne(rs[k + 1], p);
    }
  }

  /** Pages that are allocated and freed again leave the very same list. */
  lemma AllocThenFree(rs: seq<Run>, npages: nat)
    requires Canonical(rs) && npages > 0 && FirstFit(rs, 0, npages) < |rs|
    ensures var k := FirstFit(rs, 0, npages);
      Free(AllocAt(rs, k, npages), rs[k].at, npages) == rs
  {
    var k := FirstFit(rs, 0, npages);
    var r := AllocAt(rs, k, npages);
    AllocTakes(rs, k, npages, 0);
    forall p: nat | rs[k].at <= p < rs[k].at + npages
      ensures !In(r, p)
    {
      AllocTakes(rs, k, npages, p);
    }
    FreeAdds(r, rs[k].at, npages, 0);
    forall p: nat
      ensures In(Free(r, rs[k].at, npages), p) <==> In(rs, p)
    {
      AllocTakes(rs, k, npages, p);
      FreeAdds(r, rs[k].at, npages, p);
      if rs[k].at <= p < rs[k].at + npages { InRun(rs, k, p); }
    }
    Determined(Free(r, rs[k].at, npages), rs);
  }

  // ---- the list in memory

  function AtOf(rs: seq<Run>, i: nat): int {
    if i < |rs| then rs[i].at else NIL
  }

  ghost predicate HeldAt(next: seq<int>, page: seq<nat>, rs: seq<Run>, i: nat)
    requires i < |rs|
  {
    rs[i].at < |next| == |page| && page[rs[i].at] == rs[i].n && next[rs[i].at] == AtOf(rs, i + 1)
  }

  /** rt_page_list and the page heads spell out rs. */
  ghost predicate Held(first: int, next: seq<int>, page: seq<nat>, rs: seq<Run>) {
    && first == AtOf(rs, 0)
    && forall i {:trigger HeldAt(next, page, rs, i)} :: 0 <= i < |rs| ==> HeldAt(next, page, rs, i)
  }

  /** Relinking around runs lo to hi: everything outside keeps its fields, except the link in front. */
  lemma Spliced(first: int, next: seq<int>, page: seq<nat>, rs: seq<Run>, lo: nat, hi: nat, mid: seq<Run>,
                first': int, next': seq<int>, page': seq<nat>)
    requires Held(first, next, page, rs) && lo <= hi <= |rs| && |mid| <= 1 && |next'| == |next| && |page'| == |page|
    requires var r := rs[..lo] + mid + rs[hi..];
      && (if lo == 0 then first' == AtOf(r, 0)
          else first' == first && rs[lo - 1].at < |next| && next'[rs[lo - 1].at] == AtOf(r, lo))
      && (|mid| == 1 ==> HeldAt(next', page', r, lo))
    requires forall j :: 0 <= j < |rs| && !(lo <= j < hi) && rs[j].at < |page| ==> page'[rs[j].at] == page[rs[j].at]
    requires forall j :: 0 <= j < |rs| && !(lo - 1 <= j < hi) && rs[j].at < |next| ==> next'[rs[j].at] == next[rs[j].at]
    ensures Held(first', next', page', rs[..lo] + mid + rs[hi..])
  {
    Positions(rs, lo, hi, mid);
    var r := rs[..lo] + mid + rs[hi..];
    forall j | 0 <= j < |r|
      ensures HeldAt(next', page', r, j)
    {
      if j < lo {
        assert HeldAt(next, page, rs, j);
      } else if j >= lo + |mid| {
        assert HeldAt(next, page, rs, j - |mid| + (hi - lo));
      }
    }
    if lo > 0 { assert r[0] == rs[0]; }
  }

  /** Page n lies strictly inside run k or in a gap: no run starts there. */
  lemma NotAStart(rs: seq<Run>, k: nat, n: nat)
    requires Canonical(rs) && k < |rs| && rs[k].at < n < rs[k].End()
    ensures forall j :: 0 <= j < |rs| ==> rs[j].at != n
  {
    forall j | 0 <= j < |rs|
      ensures rs[j].at != n
    {
      if j < k { Ascending(rs, j, k); }
      if k < j { Ascending(rs, k, j); }
    }
  }

  lemma StartsDiffer(rs: seq<Run>, k: nat)
    requires Canonical(rs) && k < |rs|
    ensures forall j :: 0 <= j < |rs| && j != k ==> rs[j].at != rs[k].at
  {
    forall j | 0 <= j < |rs| && j != k
      ensures rs[j].at != rs[k].at
    {
      if j < k { Ascending(rs, j, k); } else { Ascending(rs, k, j); }
    }
  }

  /** first and next after the assignment *prev = x, where prev is the link in front of run k. */
  ghost predicate Relinked(first: int, next: seq<int>, rs: seq<Run>, k: nat, x: int, first': int, next': seq<int>)
    requires k <= |rs|
  {
    if k == 0 then first' == x && next' == next
    else rs[k - 1].at < |next| && first' == first && next' == next[rs[k - 1].at := x]
  }

  /** The head that the split leaves at n, in the middle of run k. */
  lemma SplitHere(next: seq<int>, page: seq<nat>, rs: seq<Run>, k: nat, n: nat, next': seq<int>, r: seq<Run>)
    requires k < |rs| && HeldAt(next, page, rs, k) && |next'| == |next| == |page| && n < |page| && rs[k].at <= n < rs[k].End()
    requires next'[n] == next[rs[k].at]
    requires |r| == |rs| && r[k] == Run(n, rs[k].End() - n) && (k + 1 < |rs| ==> r[k + 1] == rs[k + 1])
    ensures HeldAt(next', page[n := rs[k].End() - n], r, k)
  {
  }

  lemma SplitHeld(first: int, next: seq<int>, page: seq<nat>, rs: seq<Run>, k: nat, npages: nat, first': int, next': seq<int>)
    requires Held(first, next, page, rs) && Canonical(rs) && k < |rs| && 0 < npages < rs[k].n && rs[k].End() <= |next| == |page|
    requires var n := rs[k].at + npages; Relinked(first, next[n := next[rs[k].at]], rs, k, n, first', next')
    ensures Held(first', next', page[rs[k].at + npages := rs[k].n - npages], AllocAt(rs, k, npages))
  {
    hide Canonical;
    var n := rs[k].at + npages;
    assert HeldAt(next, page, rs, k);
    hide Held, HeldAt, AllocAt;
    NotAStart(rs, k, n);
    if k > 0 { StartsDiffer(rs, k - 1); }
    var mid := [Run(n, rs[k].n - npages)];
    AllocIs(rs, k, npages, mid);
    Positions(rs, k, k + 1, mid);
    var r := rs[..k] + mid + rs[k + 1..];
    assert r[k] == mid[0];
    SplitHere(next, page, rs, k, n, next', r);
    Spliced(first, next, page, rs, k, k + 1, mid, first', next', page[n := rs[k].n - npages]);
  }

  lemma DropHeld(first: int, next: seq<int>, page: seq<nat>, rs: seq<Run>, k: nat, first': int, next': seq<int>)
    requires Held(first, next, page, rs) && Canonical(rs) && k < |rs|
    requires Relinked(first, next, rs, k, AtOf(rs, k + 1), first', next')
    ensures Held(first', next', page, AllocAt(rs, k, rs[k].n))
  {
    if k > 0 { StartsDiffer(rs, k - 1); }
    Positions(rs, k, k + 1, []);
    Spliced(first, next, page, rs, k, k + 1, [], first', next', page);
    assert rs[..k] + [] + rs[k + 1..] == rs[..k] + rs[k + 1..];
  }

  lemma FreshStart(rs: seq<Run>, a: nat, n: nat)
    requires Canonical(rs) && n > 0 && NoneFree(rs, a, n)
    ensures forall j :: 0 <= j < |rs| ==> rs[j].at != a
  {
    forall j | 0 <= j < |rs|
      ensures rs[j].at != a
    {
      BeforeOrBehind(rs, a, n, j);
    }
  }

  /** The freed pages extend run k, and perhaps reach the next one. */
  lemma ExtendHeld(first: int, next: seq<int>, page: seq<nat>, rs: seq<Run>, k: nat, a: nat, n: nat)
    requires Held(first, next, page, rs) && Canonical(rs) && k < |rs| && rs[k].End() == a && |next| == |page| && rs[k].at < |next|
    ensures var joins := k + 1 < |rs| && a + n == rs[k + 1].at; var b := rs[k].at;
      Held(first, if joins then next[b := AtOf(rs, k + 2)] else next, page[b := Merged(rs, k, a, n).n], FreeAt(rs, k, a, n))
  {
    var joins := k + 1 < |rs| && a + n == rs[k + 1].at;
    var b := rs[k].at;
    var m := Absorbs(rs, k, a, n);
    var mid := [Merged(rs, k, a, n)];
    StartsDiffer(rs, k);
    assert HeldAt(next, page, rs, k);
    if k > 0 { assert HeldAt(next, page, rs, k - 1); }
    Positions(rs, k, k + m, mid);
    assert (rs[..k] + mid + rs[k + m..])[k] == mid[0];
    Spliced(first, next, page, rs, k, k + m, mid, first, if joins then next[b := AtOf(rs, k + 2)] else next, page[b := mid[0].n]);
  }

  /** The freed pages start a run of their own, which may swallow the one behind it. */
  lemma InsertHeld(first: int, next: seq<int>, page: seq<nat>, rs: seq<Run>, k: nat, a: nat, n: nat, first': int, next': seq<int>)
    requires Held(first, next, page, rs) && Canonical(rs) && k <= |rs| && n > 0 && NoneFree(rs, a, n) && a < |next| == |page|
    requires k < |rs| ==> rs[k].End() != a
    requires Relinked(first, next[a := AtOf(rs, k + Absorbs(rs, k, a, n))], rs, k, a, first', next')
    ensures Held(first', next', page[a := Merged(rs, k, a, n).n], FreeAt(rs, k, a, n))
  {
    var m := Absorbs(rs, k, a, n);
    var mid := [Merged(rs, k, a, n)];
    FreshStart(rs, a, n);
    if k > 0 { StartsDiffer(rs, k - 1); }
    Positions(rs, k, k + m, mid);
    assert (rs[..k] + mid + rs[k + m..])[k] == mid[0];
    Spliced(first, next, page, rs, k, k + m, mid, first', next', page[a := mid[0].n]);
  }

  lemma FreeBounds(rs: seq<Run>, a: nat, n: nat, max: nat)
    requires Canonical(rs) && a + n <= max && forall i :: 0 <= i < |rs| ==> rs[i].End() <= max
    ensures forall i :: 0 <= i < |Free(rs, a, n)| ==> Free(rs, a, n)[i].End() <= max
  {
    var k := StopAt(rs, 0, a, n);
    Positions(rs, k, k + Absorbs(rs, k, a, n), [Merged(rs, k, a, n)]);
  }

  lemma AllocBounds(rs: seq<Run>, k: nat, npages: nat, max: nat)
    requires k < |rs| && npages <= rs[k].n && forall i :: 0 <= i < |rs| ==> rs[i].End() <= max
    ensures forall i :: 0 <= i < |AllocAt(rs, k, npages)| ==> AllocAt(rs, k, npages)[i].End() <= max
  {
    var mid := if rs[k].n > npages then [Run(rs[k].at + npages, rs[k].n - npages)] else [];
    assert AllocAt(rs, k, npages) == rs[..k] + mid + rs[k + 1..];
  }

  class PageHeap {
    const next: array<int>
    const page: array<nat>
    var list: int                // rt_page_list
    ghost var runs: seq<Run>

    ghost predicate Linked()
      reads this, next, page
    {
      next.Length == page.Length && Held(list, next[..], page[..], runs)
    }

    ghost predicate Valid()
      reads this, next, page
    {
      Linked() && Canonical(runs) && forall i :: 0 <= i < |runs| ==> runs[i].End() <= next.Length
    }

    /** rt_page_list before rt_page_init: all pages are in use. */
    constructor (npages: nat)
      ensures Valid() && next.Length == npages && runs == [] && fresh(next) && fresh(page)
    {
      next := new int[npages](_ => NIL);
      page := new nat[npages](_ => 0);
      list := NIL;
      runs := [];
    }

    /** The fields of run k, and the link that leads to it. */
    lemma Reads(k: nat)
      requires Linked() && k <= |runs|
      ensures k < |runs| ==>
        var b := runs[k].at; b < next.Length == page.Length && page[b] == runs[k].n && next[b] == AtOf(runs, k + 1)
      ensures k > 0 ==> runs[k - 1].at < next.Length
    {
      if k < |runs| { assert HeldAt(next[..], page[..], runs, k); }
      if k > 0 { assert HeldAt(next[..], page[..], runs, k - 1); }
    }

    /** *prev = x */
    method SetPrev(prev: int, x: int)
      requires prev == NIL || 0 <= prev < next.Length
      modifies this`list, next
      ensures prev == NIL ==> list == x && next[..] == old(next[..])
      ensures prev != NIL ==> list == old(list) && next[..] == old(next[..])[prev := x]
    {
      if prev == NIL {
        list := x;
      } else {
        next[prev] := x;
      }
    }

    /** A larger run gives up its first pages. */
    method SplitAt(prev: int, b: nat, npages: nat, ghost k: nat)
      requires Valid() && k < |runs| && b == runs[k].at && prev == (if k == 0 then NIL else runs[k - 1].at)
      requires 0 < npages < runs[k].n
      modifies this, next, page
      ensures Valid() && runs == AllocAt(old(runs), k, npages)
    {
      hide Held, Canonical;
      ghost var list0, next0, page0 := list, next[..], page[..];
      Reads(k);
      AllocTakes(runs, k, npages, 0);
      AllocBounds(runs, k, npages, next.Length);
      var n := b + npages;
      next[n] := next[b];
      page[n] := page[b] - npages;
      assert next[..] == next0[n := next0[b]];
      assert page[..] == page0[n := page0[b] - npages];
      SetPrev(prev, n);
      SplitHeld(list0, next0, page0, runs, k, npages, list, next[..]);
      runs := AllocAt(runs, k, npages);
    }

    /** A run that fits exactly leaves the list. */
    method DropAt(prev: int, b: nat, npages: nat, ghost k: nat)
      requires Valid() && k < |runs| && b == runs[k].at && prev == (if k == 0 then NIL else runs[k - 1].at)
      requires 0 < npages == runs[k].n
      modifies this, next, page
      ensures Valid() && runs == AllocAt(old(runs), k, npages)
    {
      hide Held, Canonical;
      ghost var list0, next0 := list, next[..];
      Reads(k);
      AllocTakes(runs, k, npages, 0);
      AllocBounds(runs, k, npages, next.Length);
      SetPrev(prev, next[b]);
      DropHeld(list0, next0, page[..], runs, k, list, next[..]);
      runs := AllocAt(runs, k, npages);
    }

    /** rt_page_alloc */
    method PageAlloc(npages: nat) returns (b: int)
      requires Valid()
      modifies this, next, page
      ensures Valid()
      ensures npages == 0 ==> b == NIL && runs == old(runs)
      ensures npages > 0 ==>
        var k := FirstFit(old(runs), 0, npages);
        if k == |old(runs)| then b == NIL && runs == old(runs)
        else b == old(runs)[k].at && runs == AllocAt(old(runs), k, npages)
    {
      if npages == 0 {
        return NIL;
      }
      var prev := NIL;
      b := list;
      ghost var k: nat := 0;
      Reads(0);
      while b != NIL
        invariant unchanged(this) && unchanged(next) && unchanged(page)
        invariant k <= |runs| && b == AtOf(runs, k) && prev == (if k == 0 then NIL else runs[k - 1].at)
        invariant FirstFit(runs, k, npages) == FirstFit(runs, 0, npages)
        decreases |runs| - k
      {
        Reads(k);
        if page[b] > npages {
          SplitAt(prev, b, npages, k);
          return;
        }
        if page[b] == npages {
          DropAt(prev, b, npages, k);
          return;
        }
        prev := b;
        b := next[b];
        k := k + 1;
      }
    }

    /** The freed pages follow run k. */
    method Extend(b: nat, a: nat, npages: nat, ghost k: nat)
      requires Linked() && Canonical(runs) && k < |runs| && b == runs[k].at && runs[k].End() == a
      modifies this`runs, next, page
      ensures Linked() && runs == FreeAt(old(runs), k, a, npages)
    {
      hide Held, Canonical;
      ghost var next0, page0 := next[..], page[..];
      Reads(k);
      ExtendHeld(list, next0, page0, runs, k, a, npages);
      if k + 1 < |runs| { Reads(k + 1); }
      page[b] := page[b] + npages;
      if b + page[b] == next[b] {
        var behind := next[b];
        NextApart(runs, k);
        page[b] := page[b] + page[behind];
        next[b] := next[behind];
        assert next[..] == next0[b := AtOf(runs, k + 2)];
      } else {
        assert next[..] == next0;
      }
      assert page[..] == page0[b := Merged(runs, k, a, npages).n];
      runs := FreeAt(runs, k, a, npages);
    }

    /** The freed pages become a run head in front of run k. */
    method InsertRun(prev: int, n: nat, npages: nat, size: nat, behind: int, ghost k: nat)
      requires Linked() && Canonical(runs) && k <= |runs| && prev == (if k == 0 then NIL else runs[k - 1].at)
      requires npages > 0 && NoneFree(runs, n, npages) && n < next.Length && (k < |runs| ==> runs[k].End() != n)
      requires size == Merged(runs, k, n, npages).n && behind == AtOf(runs, k + Absorbs(runs, k, n, npages))
      modifies this, next, page
      ensures Linked() && runs == FreeAt(old(runs), k, n, npages)
    {
      hide Held, Canonical, Merged, NoneFree, Absorbs;
      ghost var list0, next0, page0 := list, next[..], page[..];
      Reads(k);
      page[n] := size;
      next[n] := behind;
      assert next[..] == next0[n := behind];
      SetPrev(prev, n);
      InsertHeld(list0, next0, page0, runs, k, n, npages, list, next[..]);
      assert page[..] == page0[n := size];
      runs := FreeAt(runs, k, n, npages);
    }

    /** rt_page_free */
    method PageFree(n: nat, npages: nat)
      requires Valid() && npages > 0 && n + npages <= next.Length && NoneFree(runs, n, npages)
      modifies this, next, page
      ensures Valid() && runs == Free(old(runs), n, npages)
    {
      hide Held, Canonical, NoneFree, FreeAt;
      FreeAdds(runs, n, npages, 0);
      FreeBounds(runs, n, npages, next.Length);
      StopSplits(runs, n, npages);
      var prev, b := NIL, list;
      ghost var k: nat := 0;
      ghost var goal := StopAt(runs, 0, n, npages);
      Start();
      while b != NIL
        invariant unchanged(this) && unchanged(next) && unchanged(page)
        invariant k <= |runs| && b == AtOf(runs, k) && prev == (if k == 0 then NIL else runs[k - 1].at)
        invariant goal == StopAt(runs, k, n, npages)
        decreases |runs| - k
      {
        Reads(k);
        BeforeOrBehind(runs, n, npages, k);
        assert b > n || b + page[b] <= n;
        if b + page[b] == n {
          Extend(b, n, npages, k);
          return;
        }
        if b == n + npages {
          InsertRun(prev, n, npages, page[b] + npages, next[b], k);
          return;
        }
        if b > n + npages {
          break;
        }
        prev := b;
        b := next[b];
        k := k + 1;
      }
      InsertRun(prev, n, npages, npages, b, k);
    }

    lemma Start()
      requires Linked()
      ensures list == AtOf(runs, 0)
    {
    }
  }

  lemma NextApart(rs: seq<Run>, k: nat)
    requires Canonical(rs) && k + 1 < |rs|
    ensures rs[k + 1].at != rs[k].at
  {
    StartsDiffer(rs, k);
  }
}
