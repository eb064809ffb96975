// The intrusive list of rtservice.h: next and prev fields by node address. A list head and
// its entries form one ring; a node on no list is a ring of its own.
module RtList {
  import opened Seqs
  import Ring

  class Nodes {
    var next: map<int, int>
    var prev: map<int, int>

    /** s is a list: its head first, then the entries in order. */
    ghost predicate IsList(s: seq<int>)
      reads this
    {
      s != [] && Ring.IsRing(next, prev, s)
    }

    /** Rings that share no node with s are not disturbed. */
    twostate predicate KeepsOthers(s: seq<int>)
      reads this
    {
      forall r :: old(IsList(r)) && (forall a :: a in r ==> a !in s) ==> IsList(r)
    }

    twostate lemma Framed(s: seq<int>)
      requires forall a :: a !in s && a in old(next) ==> a in next && next[a] == old(next[a])
      requires forall a :: a !in s && a in old(prev) ==> a in prev && prev[a] == old(prev[a])
      ensures KeepsOthers(s)
    {
      forall r | old(IsList(r)) && forall a :: a in r ==> a !in s
        ensures IsList(r)
      {
        Ring.Frame(old(next), old(prev), next, prev, r);
      }
    }

    /** rt_list_init */
    method Init(l: int)
      modifies this
      ensures IsList([l]) && KeepsOthers([l])
    {
      prev := prev[l := l];
      next := next[l := l];
      Framed([l]);
    }

    /** rt_list_insert_after */
    method InsertAfter(l: int, n: int, ghost s: seq<int>)
      requires IsList(s) && s[0] == l && n !in s
      modifies this
      ensures IsList([l, n] + s[1..]) && KeepsOthers(s + [n])
    {
      ghost var after := Ring.After(s, 0);
      Ring.Insert(next, prev, s, 0, n);
      assert InsertAt(s, 1, n) == [l, n] + s[1..];
      prev := prev[next[l] := n];
      next := next[n := next[l]];
      next := next[l := n];
      prev := prev[n := l];
      assert next == old(next)[n := after][l := n];
      assert prev == old(prev)[n := l][after := n] by { assert after in s; }
      Framed(s + [n]);
    }

    /** rt_list_insert_before */
    method InsertBefore(l: int, n: int, ghost s: seq<int>)
      requires IsList(s) && s[0] == l && n !in s
      modifies this
      ensures IsList(s + [n]) && KeepsOthers(s + [n])
    {
      ghost var last := s[|s| - 1];
      Ring.Link(next, prev, s, 0);
      Ring.Insert(next, prev, s, |s| - 1, n);
      assert InsertAt(s, |s|, n) == s + [n];
      next := next[prev[l] := n];
      prev := prev[n := prev[l]];
      prev := prev[l := n];
      next := next[n := l];
      assert next == old(next)[n := l][last := n];
      assert prev == old(prev)[n := last][l := n];
      Framed(s + [n]);
    }

    /** rt_list_remove */
    method Remove(n: int, ghost s: seq<int>, ghost k: nat)
      requires IsList(s) && k < |s| && s[k] == n
      modifies this
      ensures IsList([n]) && (|s| > 1 ==> IsList(RemoveAt(s, k))) && KeepsOthers(s)
    {
      Ring.Link(next, prev, s, k);
      ghost var before, after := Ring.Before(s, k), Ring.After(s, k);
      assert before in s && after in s;
      prev := prev[next[n] := prev[n]];
      next := next[prev[n] := next[n]];
      assert |s| == 1 ==> prev[n] == n;
      if |s| > 1 {
        assert after != n && before != n;
        Ring.Remove(old(next), old(prev), s, k);
        Ring.DistinctRemove(s, k);
        Ring.Frame(next, prev, next[n := n], prev[n := n], RemoveAt(s, k));
      }
      prev := prev[n := n];
      next := next[n := n];
      Framed(s);
    }

    /** rt_list_isempty */
    method IsEmpty(l: int, ghost s: seq<int>) returns (empty: bool)
      requires IsList(s) && s[0] == l
      ensures empty <==> s == [l]
    {
      Ring.Link(next, prev, s, 0);
      empty := next[l] == l;
    }

    /** rt_list_len */
    method Len(l: int, ghost s: seq<int>) returns (len: nat)
      requires IsList(s) && s[0] == l
      ensures len == |s| - 1
    {
      len := 0;
      var p := l;
      Ring.Link(next, prev, s, 0);
      while next[p] != l
        invariant len < |s| && p == s[len] && p in next && next[p] == Ring.After(s, len)
        decreases |s| - len
      {
        p := next[p];
        len := len + 1;
        Ring.Link(next, prev, s, len);
      }
    }
  }
}
