// Circular doubly linked structures stored as two address-to-address maps, the
// way next and prev fields lie in memory. The block ring and the free ring of
// memheap.c and every rt_list_t queue of the kernel are rings in this sense.
module Ring {
  import opened Seqs

  /** The element of s that follows position i, going round. */
  function After(s: seq<int>, i: nat): int
    requires i < |s|
  {
    if i + 1 < |s| then s[i + 1] else s[0]
  }

  /** The element of s that precedes position i, going round. */
  function Before(s: seq<int>, i: nat): int
    requires i < |s|
  {
    if i > 0 then s[i - 1] else s[|s| - 1]
  }

  predicate Goes(f: map<int, int>, a: int, b: int) {
    a in f && f[a] == b
  }

  ghost predicate Forward(nx: map<int, int>, s: seq<int>) {
    forall i {:trigger Goes(nx, s[i], After(s, i))} :: 0 <= i < |s| ==> Goes(nx, s[i], After(s, i))
  }

  ghost predicate Backward(pv: map<int, int>, s: seq<int>) {
    forall i {:trigger Goes(pv, s[i], Before(s, i))} :: 0 <= i < |s| ==> Goes(pv, s[i], Before(s, i))
  }

  /** The nodes of s, in this order, form one closed ring under nx, and pv is its inverse. */
  ghost predicate IsRing(nx: map<int, int>, pv: map<int, int>, s: seq<int>) {
    Distinct(s) && Forward(nx, s) && Backward(pv, s)
  }

  lemma Link(nx: map<int, int>, pv: map<int, int>, s: seq<int>, i: nat)
    requires IsRing(nx, pv, s) && i < |s|
    ensures s[i] in nx && nx[s[i]] == After(s, i)
    ensures s[i] in pv && pv[s[i]] == Before(s, i)
  {
    assert Goes(nx, s[i], After(s, i)) && Goes(pv, s[i], Before(s, i));
  }

  /** Writing next and prev fields of nodes outside the ring does not disturb it. */
  lemma Frame(nx: map<int, int>, pv: map<int, int>, nx': map<int, int>, pv': map<int, int>, s: seq<int>)
    requires IsRing(nx, pv, s)
    requires forall a :: a in s && a in nx ==> a in nx' && nx'[a] == nx[a]
    requires forall a :: a in s && a in pv ==> a in pv' && pv'[a] == pv[a]
    ensures IsRing(nx', pv', s)
  {
    forall i | 0 <= i < |s|
      ensures Goes(nx', s[i], After(s, i)) && Goes(pv', s[i], Before(s, i))
    {
      Link(nx, pv, s, i);
      assert s[i] in s;
    }
  }

  lemma DistinctRemove(s: seq<int>, k: nat)
    requires Distinct(s) && k < |s|
    ensures Distinct(RemoveAt(s, k))
    ensures forall x :: x in RemoveAt(s, k) <==> x in s && x != s[k]
  {
    DistinctIndexOf(s, k);
    WithoutMembers(s, s[k]);
  }

  lemma InsertForward(nx: map<int, int>, s: seq<int>, k: nat, a: int)
    requires Distinct(s) && Forward(nx, s) && k < |s| && a !in s
    ensures Forward(nx[a := After(s, k)][s[k] := a], InsertAt(s, k + 1, a))
  {
    var r := InsertAt(s, k + 1, a);
    var nx' := nx[a := After(s, k)][s[k] := a];
    forall i | 0 <= i < |r|
      ensures Goes(nx', r[i], After(r, i))
    {
      if i <= k {
        assert r[i] == s[i] && Goes(nx, s[i], After(s, i));
      } else if i > k + 1 {
        assert r[i] == s[i - 1] && Goes(nx, s[i - 1], After(s, i - 1));
      }
    }
  }

  lemma InsertBackward(pv: map<int, int>, s: seq<int>, k: nat, a: int)
    requires Distinct(s) && Backward(pv, s) && k < |s| && a !in s
    ensures Backward(pv[a := s[k]][After(s, k) := a], InsertAt(s, k + 1, a))
  {
    var r := InsertAt(s, k + 1, a);
    var pv' := pv[a := s[k]][After(s, k) := a];
    forall i | 0 <= i < |r|
      ensures Goes(pv', r[i], Before(r, i))
    {
      if i <= k {
        assert r[i] == s[i] && Goes(pv, s[i], Before(s, i));
      } else if i > k + 1 {
        assert r[i] == s[i - 1] && Goes(pv, s[i - 1], Before(s, i - 1));
      }
    }
  }

  /** Linking a new node after position k is an insertion into the ring's sequence. */
  lemma Insert(nx: map<int, int>, pv: map<int, int>, s: seq<int>, k: nat, a: int)
    requires IsRing(nx, pv, s) && k < |s| && a !in s
    ensures s[k] in nx && nx[s[k]] == After(s, k)
    ensures IsRing(nx[a := After(s, k)][s[k] := a], pv[a := s[k]][After(s, k) := a], InsertAt(s, k + 1, a))
  {
    Link(nx, pv, s, k);
    InsertMembers(s, k + 1, a);
    InsertForward(nx, s, k, a);
    InsertBackward(pv, s, k, a);
  }

  lemma RemoveForward(nx: map<int, int>, s: seq<int>, k: nat)
    requires Distinct(s) && Forward(nx, s) && k < |s| && |s| >= 2
    ensures Forward(nx[Before(s, k) := After(s, k)], RemoveAt(s, k))
  {
    var r := RemoveAt(s, k);
    var nx' := nx[Before(s, k) := After(s, k)];
    forall i | 0 <= i < |r|
      ensures Goes(nx', r[i], After(r, i))
    {
      var j := if i < k then i else i + 1;
      assert r[i] == s[j] && Goes(nx, s[j], After(s, j));
    }
  }

  lemma RemoveBackward(pv: map<int, int>, s: seq<int>, k: nat)
    requires Distinct(s) && Backward(pv, s) && k < |s| && |s| >= 2
    ensures Backward(pv[After(s, k) := Before(s, k)], RemoveAt(s, k))
  {
    var r := RemoveAt(s, k);
    var pv' := pv[After(s, k) := Before(s, k)];
    forall i | 0 <= i < |r|
      ensures Goes(pv', r[i], Before(r, i))
    {
      var j := if i < k then i else i + 1;
      assert r[i] == s[j] && Goes(pv, s[j], Before(s, j));
    }
  }

  /** Linking the two neighbours of position k to each other removes it from the ring's sequence. */
  lemma Remove(nx: map<int, int>, pv: map<int, int>, s: seq<int>, k: nat)
    requires IsRing(nx, pv, s) && k < |s| && |s| >= 2
    ensures s[k] in nx && s[k] in pv && nx[s[k]] == After(s, k) && pv[s[k]] == Before(s, k)
    ensures IsRing(nx[Before(s, k) := After(s, k)], pv[After(s, k) := Before(s, k)], RemoveAt(s, k))
  {
    Link(nx, pv, s, k);
    DistinctRemove(s, k);
    RemoveForward(nx, s, k);
    RemoveBackward(pv, s, k);
  }
}
