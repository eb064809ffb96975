// The waiting discipline shared by mailboxes and memory pools: a thread that finds
// nothing to take suspends; a thread that makes something available resumes one
// waiter, which takes nothing by being resumed but looks again.
module Waiting {
  import opened Seqs

  type Tid = nat

  // waiting: suspended threads in list order; woken: resumed, not yet looked again
  datatype Side = Side(waiting: seq<Tid>, woken: set<Tid>)

  ghost predicate Sound(s: Side) {
    Distinct(s.waiting) && forall t :: t in s.waiting ==> t !in s.woken
  }

  /** Nobody waits beside available items unless as many others are on their way to them. */
  ghost predicate Served(available: nat, s: Side) {
    Sound(s) && (s.waiting != [] ==> available <= |s.woken|)
  }

  function Block(s: Side, t: Tid, at: nat): Side
    requires at <= |s.waiting|
  {
    Side(InsertAt(s.waiting, at, t), s.woken - {t})
  }

  function Wake(s: Side): Side {
    if s.waiting == [] then s else Side(s.waiting[1..], s.woken + {s.waiting[0]})
  }

  /** t looks and finds something, or finds nothing and gives up. */
  function Leave(s: Side, t: Tid): Side {
    s.(woken := s.woken - {t})
  }

  function Expire(s: Side, t: Tid): Side {
    s.(waiting := Without(s.waiting, t))
  }

  function Release(s: Side): Side {
    s.(waiting := [])
  }

  lemma BlockServed(s: Side, t: Tid, at: nat)
    requires Sound(s) && at <= |s.waiting| && t !in s.waiting
    ensures Served(0, Block(s, t, at))
  {
    InsertMembers(s.waiting, at, t);
  }

  lemma WakeServed(s: Side, available: nat)
    requires Served(available, s)
    ensures Served(available + 1, Wake(s))
  {
    if s.waiting != [] {
      TailMembers(s.waiting);
      assert s.waiting[0] in s.waiting;
    }
  }

  /** Whoever has waited at the front is resumed, and nobody else; the others keep their order. */
  lemma WakesFirst(s: Side)
    requires Sound(s)
    ensures forall t :: t in Wake(s).woken <==> t in s.woken || (s.waiting != [] && t == s.waiting[0])
    ensures s.waiting != [] ==> [s.waiting[0]] + Wake(s).waiting == s.waiting && s.waiting[0] !in Wake(s).waiting
  {
    if s.waiting != [] { TailMembers(s.waiting); }
  }

  /** A thread waits where it was put, and leaves that place, and no other, when its time is up. */
  lemma WaitsExactly(s: Side, t: Tid, at: nat)
    requires Sound(s) && t !in s.waiting && at <= |s.waiting|
    ensures var b := Block(s, t, at);
      && at < |b.waiting| && b.waiting[at] == t && b.waiting[..at] + b.waiting[at + 1..] == s.waiting
      && Expire(b, t).waiting == s.waiting && Expire(s, t) == s
      && forall u :: u in b.woken <==> u in s.woken && u != t
  {
    InsertMembers(s.waiting, at, t);
    InsertedAt(s.waiting, at, t);
    WithoutAbsent(s.waiting, t);
    hide Distinct, InsertAt, Without;
  }

  lemma LeaveServed(s: Side, t: Tid, available: nat)
    requires Served(available, s)
    ensures available > 0 ==> Served(available - 1, Leave(s, t))
    ensures available == 0 ==> Served(0, Leave(s, t))
  {
  }

  lemma ExpireServed(s: Side, t: Tid, available: nat)
    requires Served(available, s)
    ensures Served(available, Expire(s, t))
  {
    WithoutMembers(s.waiting, t);
  }
}
