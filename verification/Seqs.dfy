// Small vocabulary shared by every model: optional values, sequences without
// repetition, and removal of one element.
module Seqs {

  datatype Option<+T> = None | Some(value: T)

  ghost predicate Distinct<T>(s: seq<T>) {
    forall i, j :: 0 <= i < j < |s| ==> s[i] != s[j]
  }

  function RemoveAt<T>(s: seq<T>, k: nat): (r: seq<T>)
    requires k < |s|
    ensures |r| == |s| - 1
  {
    s[..k] + s[k + 1..]
  }

  function InsertAt<T>(s: seq<T>, k: nat, x: T): (r: seq<T>)
    requires k <= |s|
    ensures |r| == |s| + 1
  {
    s[..k] + [x] + s[k..]
  }

  /** The position of the first occurrence of x. */
  function IndexOf<T(==)>(s: seq<T>, x: T): (k: nat)
    requires x in s
    ensures k < |s| && s[k] == x
    ensures x !in s[..k]
  {
    if s[0] == x then 0 else
      assert s == [s[0]] + s[1..];
      1 + IndexOf(s[1..], x)
  }

  /** s without the first occurrence of x; s itself when x does not occur. */
  function Without<T(==)>(s: seq<T>, x: T): (r: seq<T>) {
    if x in s then RemoveAt(s, IndexOf(s, x)) else s
  }

  lemma DistinctIndexOf<T>(s: seq<T>, k: nat)
    requires Distinct(s) && k < |s|
    ensures IndexOf(s, s[k]) == k
    ensures Without(s, s[k]) == RemoveAt(s, k)
  {
    var i := IndexOf(s, s[k]);
    assert s[i] == s[k];
  }

  /** What has been put in at i comes out again. */
  lemma InsertedAt<T>(s: seq<T>, i: nat, x: T)
    requires i <= |s| && Distinct(InsertAt(s, i, x))
    ensures var r := InsertAt(s, i, x); i < |r| && r[i] == x && r[..i] + r[i + 1..] == s && Without(r, x) == s
  {
    var r := InsertAt(s, i, x);
    assert r[i] == x;
    DistinctIndexOf(r, i);
    assert r[..i] + r[i + 1..] == s;
  }

  lemma WithoutAbsent<T>(s: seq<T>, x: T)
    requires x !in s
    ensures Without(s, x) == s
  {
  }

  lemma WithoutMembers<T>(s: seq<T>, x: T)
    requires Distinct(s)
    ensures Distinct(Without(s, x)) && x !in Without(s, x)
    ensures forall y :: y in Without(s, x) <==> y in s && y != x
  {
    if x in s {
      WithoutAt(s, x);
      hide Without, IndexOf;
      var k, r := IndexOf(s, x), Without(s, x);
      forall y | y in s && y != x
        ensures y in r
      {
        var i :| 0 <= i < |s| && s[i] == y;
        assert if i < k then r[i] == y else r[i - 1] == y;
      }
    }
  }

  lemma WithoutAt<T>(s: seq<T>, x: T)
    requires x in s
    ensures var k, r := IndexOf(s, x), Without(s, x);
      && k < |s| && s[k] == x && |r| == |s| - 1
      && (forall i :: 0 <= i < k ==> r[i] == s[i]) && forall i :: k <= i < |r| ==> r[i] == s[i + 1]
  {
  }

  lemma Parts<T>(s: seq<T>, lo: nat, hi: nat)
    requires lo <= hi <= |s|
    ensures s == s[..lo] + s[lo..hi] + s[hi..]
  {
    assert s[..lo] + s[lo..hi] == s[..hi];
  }

  lemma SliceFront<T>(s: seq<T>, a: nat, z: nat, m: nat)
    requires a <= m <= z <= |s|
    ensures s[a..z][..m - a] == s[a..m]
  {
  }

  lemma WithoutMultiset<T>(s: seq<T>, x: T)
    requires x in s
    ensures multiset(s) == multiset(Without(s, x)) + multiset{x}
  {
    var k := IndexOf(s, x);
    assert s == s[..k] + [x] + s[k + 1..];
  }

  lemma TailMembers<T>(s: seq<T>)
    requires Distinct(s) && s != []
    ensures Distinct(s[1..])
    ensures forall x :: x in s[1..] <==> x in s && x != s[0]
  {
    assert s == [s[0]] + s[1..];
  }

  lemma InsertMembers<T>(s: seq<T>, k: nat, x: T)
    requires k <= |s|
    ensures forall y :: y in InsertAt(s, k, x) <==> y == x || y in s
    ensures Distinct(s) && x !in s ==> Distinct(InsertAt(s, k, x))
  {
    var r := InsertAt(s, k, x);
    assert s == s[..k] + s[k..];
    assert forall i :: 0 <= i < |r| ==> r[i] == if i < k then s[i] else if i == k then x else s[i - 1];
  }

  // ---- counting

  function Elements<T>(s: seq<T>): set<T> {
    set x | x in s
  }

  lemma {:induction false} SizeOfElements<T>(s: seq<T>)
    requires Distinct(s)
    ensures |Elements(s)| == |s|
  {
    if s != [] {
      TailMembers(s);
      SizeOfElements(s[1..]);
      assert Elements(s) == Elements(s[1..]) + {s[0]};
    }
  }

  lemma {:induction false} SubsetSize<T>(a: set<T>, b: set<T>)
    requires a <= b
    ensures |a| <= |b|
  {
    if a != {} {
      var x :| x in a;
      SubsetSize(a - {x}, b - {x});
    }
  }

  function Below(max: nat): (b: set<nat>)
    ensures forall x: nat :: x in b <==> x < max
    ensures |b| == max
  {
    if max == 0 then {} else Below(max - 1) + {max - 1}
  }

  /** Distinct naturals below max are at most max many. */
  lemma Pigeonhole(s: seq<nat>, max: nat)
    requires Distinct(s) && forall x :: x in s ==> x < max
    ensures |s| <= max
  {
    SizeOfElements(s);
    SubsetSize(Elements(s), Below(max));
  }
}
