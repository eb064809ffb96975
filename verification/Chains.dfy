// Null-terminated lists threaded through the header words of an array of slots.
module Chains {
  import opened Seqs

  const NIL := -1   // RT_NULL

  /** Following next fields from first visits exactly s and ends at RT_NULL. */
  ghost predicate Chain(next: seq<int>, first: int, s: seq<nat>)
    decreases |s|
  {
    if s == [] then first == NIL
    else first == s[0] && s[0] < |next| && Chain(next, next[s[0]], s[1..])
  }

  lemma {:induction false} ChainFrame(next: seq<int>, first: int, s: seq<nat>, x: nat, v: int)
    requires Chain(next, first, s) && x < |next| && x !in s
    ensures Chain(next[x := v], first, s)
    decreases |s|
  {
    if s != [] {
      ChainFrame(next, next[s[0]], s[1..], x, v);
    }
  }

  /** Hanging a terminated slot x behind the last one. */
  lemma {:induction false} ChainAppend(next: seq<int>, first: int, s: seq<nat>, x: nat)
    requires Chain(next, first, s) && Distinct(s) && s != [] && x < |next| && x !in s && next[x] == NIL
    ensures s[|s| - 1] < |next| && Chain(next[s[|s| - 1] := x], first, s + [x])
    decreases |s|
  {
    var last := s[|s| - 1];
    ChainBounds(next, first, s);
    var next' := next[last := x];
    TailMembers(s);
    assert (s + [x])[1..] == s[1..] + [x];
    if |s| == 1 {
      assert Chain(next', x, [x]) by { assert [x][1..] == []; }
      assert s[1..] + [x] == [x];
    } else {
      assert s[1..][|s| - 2] == last;
      ChainAppend(next, next[s[0]], s[1..], x);
    }
  }

  /** Putting slot x, whose next field leads to the list, in front of it. */
  lemma ChainPrepend(next: seq<int>, s: seq<nat>, x: nat)
    requires x < |next| && Chain(next, next[x], s)
    ensures Chain(next, x, [x] + s)
  {
    assert ([x] + s)[1..] == s;
  }

  lemma ChainOne(next: seq<int>, x: nat)
    requires x < |next| && next[x] == NIL
    ensures Chain(next, x, [x])
  {
    assert [x][1..] == [];
  }

  lemma {:induction false} ChainBounds(next: seq<int>, first: int, s: seq<nat>)
    requires Chain(next, first, s)
    ensures forall i :: 0 <= i < |s| ==> s[i] < |next|
    decreases |s|
  {
    if s != [] {
      ChainBounds(next, next[s[0]], s[1..]);
    }
  }

  lemma ChainEnds(next: seq<int>, first: int, s: seq<nat>)
    requires Chain(next, first, s)
    ensures first == NIL <==> s == []
  {
  }
}
