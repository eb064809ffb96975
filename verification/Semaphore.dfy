// The semaphore of ipc.c: a release with waiters hands its unit to the first of them
// without ever counting it, so a unit is never both counted and waited for.
module Semaphore {
  import opened Seqs

  type Tid = nat

  datatype State = State(value: nat, waiting: seq<Tid>)

  datatype Action =
    | Take(t: Tid)                 // rt_sem_take, or rt_sem_trytake
    | TakeBlock(t: Tid, at: nat)   // rt_sem_take without a unit; at is the place rt_ipc_list_suspend picks
    | Release
    | Timeout(t: Tid)
    | Reset(value: nat)            // rt_sem_control

  predicate Enabled(s: State, a: Action) {
    match a
    case Take(t) => t !in s.waiting && s.value > 0
    case TakeBlock(t, at) => t !in s.waiting && s.value == 0 && at <= |s.waiting|
    case _ => true
  }

  /** The next state, and how many takes succeed in this step: the caller's, or the resumed waiter's. */
  function Next(s: State, a: Action): (State, nat)
    requires Enabled(s, a)
  {
    match a
    case Take(t) => (s.(value := s.value - 1), 1)
    case TakeBlock(t, at) => (s.(waiting := InsertAt(s.waiting, at, t)), 0)
    case Release => if s.waiting != [] then (s.(waiting := s.waiting[1..]), 1) else (s.(value := s.value + 1), 0)
    case Timeout(t) => (s.(waiting := Without(s.waiting, t)), 0)
    case Reset(v) => (State(v, []), 0)
  }

  class SemaphoreObject {
    var value: nat
    var waiting: seq<Tid>   // parent.suspend_thread

    ghost function Model(): State
      reads this
    {
      State(value, waiting)
    }

    /** rt_sem_init */
    constructor (value: nat)
      requires value < 0x10000
      ensures Model() == State(value, [])
    {
      this.value := value;
      waiting := [];
    }

    /** The region of rt_sem_take; wait is time != 0. ok: the unit is taken; otherwise, with wait, the thread is now suspended. */
    method TakeUnit(t: Tid, wait: bool, at: nat) returns (ok: bool)
      requires t !in waiting && at <= |waiting|
      modifies this
      ensures ok == Enabled(old(Model()), Take(t))
      ensures Model() == if ok then Next(old(Model()), Take(t)).0 else if wait then Next(old(Model()), TakeBlock(t, at)).0 else old(Model())
    {
      ok := value > 0;
      if ok {
        value := value - 1;
      } else if wait {
        waiting := InsertAt(waiting, at, t);
      }
    }

    /** The region of rt_sem_release; needSchedule: a waiter was resumed. */
    method ReleaseUnit() returns (needSchedule: bool)
      modifies this
      ensures (Model(), if needSchedule then 1 else 0) == Next(old(Model()), Release)
    {
      needSchedule := waiting != [];
      if needSchedule {
        waiting := waiting[1..];
      } else {
        value := value + 1;
      }
    }
  }

  /** Nobody waits beside an available unit, and nobody waits twice. */
  ghost predicate Inv(s: State) {
    Distinct(s.waiting) && (s.value > 0 ==> s.waiting == [])
  }

  lemma StepKeepsInv(s: State, a: Action)
    requires Inv(s) && Enabled(s, a)
    ensures Inv(Next(s, a).0)
  {
    match a
    case TakeBlock(t, at) => InsertMembers(s.waiting, at, t);
    case Release => if s.waiting != [] { TailMembers(s.waiting); }
    case Timeout(t) => WithoutMembers(s.waiting, t);
    case _ =>
  }

  ghost predicate IsRun(s: State, steps: seq<Action>)
    decreases |steps|
  {
    steps != [] ==> Enabled(s, steps[0]) && IsRun(Next(s, steps[0]).0, steps[1..])
  }

  ghost function After(s: State, steps: seq<Action>): State
    requires IsRun(s, steps)
    decreases |steps|
  {
    if steps == [] then s else After(Next(s, steps[0]).0, steps[1..])
  }

  /** How many takes succeed over a run. */
  ghost function Taken(s: State, steps: seq<Action>): nat
    requires IsRun(s, steps)
    decreases |steps|
  {
    if steps == [] then 0 else Next(s, steps[0]).1 + Taken(Next(s, steps[0]).0, steps[1..])
  }

  function Releases(steps: seq<Action>): nat {
    if steps == [] then 0 else (if steps[0].Release? then 1 else 0) + Releases(steps[1..])
  }

  /** Over any run nobody is left waiting beside a unit; and without resets every unit released or there at the start has been taken once or is still there. */
  lemma {:induction false} EveryRun(s: State, steps: seq<Action>)
    requires Inv(s) && IsRun(s, steps)
    ensures Inv(After(s, steps))
    ensures (forall a :: a in steps ==> !a.Reset?) ==> Taken(s, steps) + After(s, steps).value == s.value + Releases(steps)
    decreases |steps|
  {
    if steps != [] {
      StepKeepsInv(s, steps[0]);
      EveryRun(Next(s, steps[0]).0, steps[1..]);
      assert steps[0] in steps && forall a :: a in steps[1..] ==> a in steps;
    }
  }

  // ---- whose turn it is

  /** Nobody gives up or is thrown out, newcomers queue at the end, and t, once served, does not come back. */
  ghost predicate Orderly(s: State, steps: seq<Action>, t: Tid)
    requires IsRun(s, steps)
    decreases |steps|
  {
    steps != [] ==>
      && (match steps[0]
          case Take(_) => true
          case TakeBlock(u, at) => u != t && at == |s.waiting|
          case Release => true
          case _ => false)
      && Orderly(Next(s, steps[0]).0, steps[1..], t)
  }

  /** First come, first served: a waiter with k others in front is served by release number k + 1 and by no other. */
  lemma {:induction false} InTurn(s: State, steps: seq<Action>, t: Tid)
    requires Inv(s) && t in s.waiting && IsRun(s, steps) && Orderly(s, steps, t)
    ensures t !in After(s, steps).waiting <==> Releases(steps) > IndexOf(s.waiting, t)
    decreases |steps|
  {
    if steps != [] {
      var s' := Next(s, steps[0]).0;
      StepKeepsInv(s, steps[0]);
      match steps[0]
      case TakeBlock(u, _) =>
        IndexInFront(s.waiting, u, t);
        InTurn(s', steps[1..], t);
      case Release =>
        TailMembers(s.waiting);
        if s.waiting[0] == t {
          Gone(s', steps[1..], t);
        } else {
          IndexBehind(s.waiting, t);
          InTurn(s', steps[1..], t);
        }
    }
  }

  lemma IndexInFront(l: seq<Tid>, u: Tid, t: Tid)
    requires Distinct(l) && t in l && u !in l
    ensures InsertAt(l, |l|, u) == l + [u] && t in l + [u] && Distinct(l + [u]) && IndexOf(l + [u], t) == IndexOf(l, t)
  {
    InsertMembers(l, |l|, u);
    assert InsertAt(l, |l|, u) == l + [u];
    DistinctIndexOf(l + [u], IndexOf(l, t));
  }

  lemma IndexBehind(l: seq<Tid>, t: Tid)
    requires Distinct(l) && t in l && l[0] != t
    ensures t in l[1..] && IndexOf(l[1..], t) == IndexOf(l, t) - 1
  {
    TailMembers(l);
    DistinctIndexOf(l[1..], IndexOf(l, t) - 1);
  }

  lemma {:induction false} Gone(s: State, steps: seq<Action>, t: Tid)
    requires Inv(s) && t !in s.waiting && IsRun(s, steps) && Orderly(s, steps, t)
    ensures t !in After(s, steps).waiting
    decreases |steps|
  {
    if steps != [] {
      StepKeepsInv(s, steps[0]);
      Gone(Next(s, steps[0]).0, steps[1..], t);
    }
  }

  /** A waiter whose time is up leaves the queue; a reset sends everybody away and leaves the value given. */
  lemma LeavesExactly(s: State, t: Tid, v: nat)
    requires Inv(s)
    ensures var s' := Next(s, Timeout(t)).0;
      && s'.value == s.value && (t !in s.waiting ==> s' == s)
      && forall k :: 0 <= k < |s.waiting| && s.waiting[k] == t ==> s'.waiting == s.waiting[..k] + s.waiting[k + 1..]
    ensures Next(s, Reset(v)).0.value == v && forall u :: u !in Next(s, Reset(v)).0.waiting
  {
    forall k | 0 <= k < |s.waiting| && s.waiting[k] == t
      ensures Without(s.waiting, t) == s.waiting[..k] + s.waiting[k + 1..]
    {
      DistinctIndexOf(s.waiting, k);
    }
    if t !in s.waiting { WithoutAbsent(s.waiting, t); }
  }

  /** A thread that is not waiting takes a unit exactly if there is one, and can wait exactly if there is none. */
  lemma TakesExactly(s: State, t: Tid, at: nat)
    requires t !in s.waiting && at <= |s.waiting|
    ensures Enabled(s, Take(t)) <==> s.value > 0
    ensures Enabled(s, TakeBlock(t, at)) <==> s.value == 0
    ensures s.value == 0 ==> var r := Next(s, TakeBlock(t, at)).0; at < |r.waiting| && r.waiting[at] == t && r.value == 0
  {
  }
}
