// The mutex of ipc.c with its priority inheritance: a waiter lends its priority to
// the owner, and the last release gives the owner back what it had.
module Mutex {
  import opened Seqs

  type Tid = nat
  type Priority = nat   // 0 is the highest

  const NO_PRIORITY: Priority := 0xff

  datatype Flag = Fifo | Prio

  datatype State = State(
    value: nat,
    hold: nat,
    original: Priority,          // original_priority
    owner: Option<Tid>,
    waiters: seq<Tid>,           // parent.suspend_thread
    prio: map<Tid, Priority>)    // current_priority of every thread

  datatype Result = Taken | Refused | Suspended

  /** Where rt_ipc_list_suspend puts a thread of priority p. */
  function Position(flag: Flag, prio: map<Tid, Priority>, ws: seq<Tid>, p: Priority): (k: nat)
    ensures k <= |ws|
  {
    if flag == Fifo then |ws| else FirstBelow(prio, ws, p)
  }

  /** The first waiter with a strictly lower priority than p, or the end. */
  function FirstBelow(prio: map<Tid, Priority>, ws: seq<Tid>, p: Priority): (k: nat)
    ensures k <= |ws|
  {
    if ws == [] || (ws[0] in prio && p < prio[ws[0]]) then 0 else 1 + FirstBelow(prio, ws[1..], p)
  }

  function Take(s: State, t: Tid, wait: bool, flag: Flag): (State, Result)
    requires t in s.prio && (s.owner.Some? ==> s.owner.value in s.prio) && (s.value == 0 ==> s.owner.Some?)
  {
    if s.owner == Some(t) then (s.(hold := s.hold + 1), Taken)
    else if s.value > 0 then
      (s.(value := s.value - 1, owner := Some(t), original := s.prio[t], hold := s.hold + 1), Taken)
    else if !wait then (s, Refused)
    else
      var o := s.owner.value;
      var prio := if s.prio[t] < s.prio[o] then s.prio[o := s.prio[t]] else s.prio;
      (s.(prio := prio, waiters := InsertAt(s.waiters, Position(flag, prio, s.waiters, prio[t]), t)), Suspended)
  }

  /** false stands for -RT_ERROR. */
  function Release(s: State, t: Tid): (State, bool)
    requires s.owner.Some? ==> s.hold > 0 && s.owner.value in s.prio
    requires forall w :: w in s.waiters ==> w in s.prio
  {
    if s.owner != Some(t) then (s, false)
    else if s.hold > 1 then (s.(hold := s.hold - 1), true)
    else
      var prio := s.prio[t := s.original];
      if s.waiters != [] then
        var next := s.waiters[0];
        (State(s.value, 1, prio[next], Some(next), s.waiters[1..], prio), true)
      else (State(s.value + 1, 0, NO_PRIORITY, None, [], prio), true)
  }

  /** rt_thread_timeout on a waiter. */
  function Expire(s: State, t: Tid): State {
    s.(waiters := Without(s.waiters, t))
  }

  // ---- the object

  class MutexObject {
    var value: nat
    var hold: nat
    var original: Priority
    var owner: Option<Tid>
    var waiters: seq<Tid>
    var prio: map<Tid, Priority>
    const flag: Flag

    ghost function Model(): State
      reads this
    {
      State(value, hold, original, owner, waiters, prio)
    }

    /** rt_mutex_init */
    constructor (flag: Flag, prio: map<Tid, Priority>)
      ensures this.flag == flag && Model() == State(1, 0, NO_PRIORITY, None, [], prio)
    {
      this.flag := flag;
      value, owner, original, hold := 1, None, NO_PRIORITY, 0;
      waiters := [];
      this.prio := prio;
    }

    /** rt_ipc_list_suspend, as far as the list goes. */
    method Enqueue(t: Tid)
      requires t in prio && forall w :: w in waiters ==> w in prio
      modifies this`waiters
      ensures waiters == InsertAt(old(waiters), Position(flag, prio, old(waiters), prio[t]), t)
    {
      var n := 0;
      if flag == Fifo {
        n := |waiters|;
      } else {
        while n < |waiters| && !(prio[t] < prio[waiters[n]])
          invariant n <= |waiters|
          invariant FirstBelow(prio, waiters, prio[t]) == n + FirstBelow(prio, waiters[n..], prio[t])
        {
          assert waiters[n..][0] == waiters[n] && waiters[n..][1..] == waiters[n + 1..];
          n := n + 1;
        }
      }
      waiters := InsertAt(waiters, n, t);
    }

    /** The first region of rt_mutex_take; wait is time != 0. */
    method TakeMutex(t: Tid, wait: bool) returns (r: Result)
      requires t in prio && (owner.Some? ==> owner.value in prio) && (value == 0 ==> owner.Some?)
      requires forall w :: w in waiters ==> w in prio
      modifies this
      ensures (Model(), r) == Take(old(Model()), t, wait, flag)
    {
      if owner == Some(t) {
        hold := hold + 1;
        r := Taken;
      } else if value > 0 {
        value := value - 1;
        owner := Some(t);
        original := prio[t];
        hold := hold + 1;
        r := Taken;
      } else if !wait {
        r := Refused;
      } else {
        if prio[t] < prio[owner.value] {
          prio := prio[owner.value := prio[t]];
        }
        Enqueue(t);
        r := Suspended;
      }
    }

    /** The region of rt_mutex_release. */
    method ReleaseMutex(t: Tid) returns (ok: bool)
      requires (owner.Some? ==> hold > 0 && owner.value in prio) && forall w :: w in waiters ==> w in prio
      modifies this
      ensures (Model(), ok) == Release(old(Model()), t)
    {
      if owner != Some(t) {
        return false;
      }
      hold := hold - 1;
      if hold == 0 {
        if original != prio[t] {
          prio := prio[t := original];
        }
        SetIsId(old(prio), t, original);
        if waiters != [] {
          var next := waiters[0];
          owner := Some(next);
          original := prio[next];
          hold := hold + 1;
          waiters := waiters[1..];
        } else {
          value := value + 1;
          owner := None;
          original := NO_PRIORITY;
        }
      }
      ok := true;
    }
  }

  lemma SetIsId(m: map<Tid, Priority>, t: Tid, p: Priority)
    ensures t in m && m[t] == p ==> m[t := p] == m
  {
  }

  // ---- what every step keeps

  predicate Sorted(prio: map<Tid, Priority>, ws: seq<Tid>)
    requires forall w :: w in ws ==> w in prio
  {
    forall i, j :: 0 <= i < j < |ws| ==> prio[ws[i]] <= prio[ws[j]]
  }

  /** base: the priority each thread has of its own. */
  ghost predicate Known(s: State, base: map<Tid, Priority>) {
    && s.prio.Keys == base.Keys
    && (forall w :: w in s.waiters ==> w in base)
    && (s.owner.Some? ==> s.owner.value in base)
  }

  /** The mutex is free, or owned; only the owner's priority is lent, and the way back is remembered. */
  ghost predicate Sound(s: State, base: map<Tid, Priority>) {
    && Known(s, base)
    && Distinct(s.waiters)
    && (s.owner.None? ==> s.value == 1 && s.hold == 0 && s.waiters == [])
    && (s.owner.Some? ==> s.value == 0 && s.hold >= 1 && s.owner.value !in s.waiters && s.original == base[s.owner.value])
    && (forall t :: t in base && s.owner != Some(t) ==> s.prio[t] == base[t])
    && (s.owner.Some? ==> s.prio[s.owner.value] <= base[s.owner.value])
  }

  /** The owner runs at least as urgently as everyone who waits for it. */
  ghost predicate OwnerLeads(s: State, base: map<Tid, Priority>)
    requires Known(s, base)
  {
    s.owner.Some? ==> forall w :: w in s.waiters ==> s.prio[s.owner.value] <= base[w]
  }

  ghost predicate InOrder(s: State, base: map<Tid, Priority>)
    requires Known(s, base)
  {
    Sorted(base, s.waiters)
  }

  ghost predicate Inv(s: State, base: map<Tid, Priority>) {
    Sound(s, base) && OwnerLeads(s, base) && InOrder(s, base)
  }

  datatype Action = TakeBy(t: Tid, wait: bool) | ReleaseBy(t: Tid) | Timeout(t: Tid)

  /** Only a thread that is not suspended on the mutex calls it. */
  predicate Enabled(s: State, a: Action) {
    a.t in s.prio && (a.TakeBy? || a.ReleaseBy? ==> a.t !in s.waiters)
  }

  ghost function Next(s: State, a: Action, flag: Flag, base: map<Tid, Priority>): State
    requires Sound(s, base) && Enabled(s, a)
  {
    match a
    case TakeBy(t, wait) => Take(s, t, wait, flag).0
    case ReleaseBy(t) => Release(s, t).0
    case Timeout(t) => Expire(s, t)
  }

  lemma StepKeepsSound(s: State, a: Action, flag: Flag, base: map<Tid, Priority>)
    requires Sound(s, base) && Enabled(s, a)
    ensures Sound(Next(s, a, flag, base), base)
  {
    hide InsertAt, FirstBelow;
    match a
    case TakeBy(t, wait) =>
      if s.owner.Some? && s.owner != Some(t) && wait {
        var p := Take(s, t, wait, flag).0.prio;
        InsertMembers(s.waiters, Position(flag, p, s.waiters, p[t]), t);
      }
    case ReleaseBy(t) =>
      if s.waiters != [] {
        TailMembers(s.waiters);
        assert s.waiters[0] in s.waiters;
      }
    case Timeout(t) => WithoutMembers(s.waiters, t);
  }

  // ---- priority-ordered queues

  /** The queue position is behind everyone at least as urgent and in front of everyone less urgent. */
  lemma {:induction false} FirstBelowSplits(prio: map<Tid, Priority>, ws: seq<Tid>, p: Priority)
    requires (forall w :: w in ws ==> w in prio) && Sorted(prio, ws)
    ensures var k := FirstBelow(prio, ws, p);
      (forall i :: 0 <= i < k ==> prio[ws[i]] <= p) && (forall i :: k <= i < |ws| ==> p < prio[ws[i]])
  {
    if ws != [] && !(p < prio[ws[0]]) {
      FirstBelowSplits(prio, ws[1..], p);
      var k := FirstBelow(prio, ws[1..], p);
      forall i | k + 1 <= i < |ws|
        ensures p < prio[ws[i]]
      {
        assert ws[i] == ws[1..][i - 1];
      }
      forall i | 0 <= i < k + 1
        ensures prio[ws[i]] <= p
      {
        if i > 0 { assert ws[i] == ws[1..][i - 1]; }
      }
    }
  }

  lemma Inserted(ws: seq<Tid>, k: nat, t: Tid, i: nat)
    requires k <= |ws| && i <= |ws|
    ensures InsertAt(ws, k, t)[i] == if i < k then ws[i] else if i == k then t else ws[i - 1]
  {
  }

  lemma InsertKeepsOrder(prio: map<Tid, Priority>, ws: seq<Tid>, k: nat, t: Tid)
    requires (forall w :: w in ws ==> w in prio) && t in prio && Sorted(prio, ws) && k <= |ws|
    requires forall i :: 0 <= i < k ==> prio[ws[i]] <= prio[t]
    requires forall i :: k <= i < |ws| ==> prio[t] < prio[ws[i]]
    ensures var r := InsertAt(ws, k, t); (forall w :: w in r ==> w in prio) && Sorted(prio, r)
  {
    hide InsertAt;
    InsertMembers(ws, k, t);
    var r := InsertAt(ws, k, t);
    forall i, j | 0 <= i < j < |r|
      ensures prio[r[i]] <= prio[r[j]]
    {
      Inserted(ws, k, t, i);
      Inserted(ws, k, t, j);
    }
  }

  lemma EnqueueKeepsOrder(prio: map<Tid, Priority>, ws: seq<Tid>, t: Tid)
    requires (forall w :: w in ws ==> w in prio) && Sorted(prio, ws) && t in prio
    ensures var r := InsertAt(ws, FirstBelow(prio, ws, prio[t]), t);
      (forall w :: w in r ==> w in prio) && Sorted(prio, r)
  {
    FirstBelowSplits(prio, ws, prio[t]);
    InsertKeepsOrder(prio, ws, FirstBelow(prio, ws, prio[t]), t);
  }

  /** FirstBelow looks at the waiters' priorities only. */
  lemma {:induction false} FirstBelowAgrees(prio: map<Tid, Priority>, base: map<Tid, Priority>, ws: seq<Tid>, p: Priority)
    requires forall w :: w in ws ==> w in prio && w in base && prio[w] == base[w]
    ensures FirstBelow(prio, ws, p) == FirstBelow(base, ws, p)
  {
    if ws != [] {
      FirstBelowAgrees(prio, base, ws[1..], p);
    }
  }

  lemma TakeKeepsInv(s: State, t: Tid, wait: bool, base: map<Tid, Priority>)
    requires Inv(s, base) && Enabled(s, TakeBy(t, wait))
    ensures Inv(Next(s, TakeBy(t, wait), Prio, base), base)
  {
    StepKeepsSound(s, TakeBy(t, wait), Prio, base);
    if s.owner.Some? && s.owner != Some(t) && wait {
      var p := Take(s, t, wait, Prio).0.prio;
      FirstBelowAgrees(p, base, s.waiters, base[t]);
      EnqueueKeepsOrder(base, s.waiters, t);
      InsertMembers(s.waiters, FirstBelow(base, s.waiters, base[t]), t);
    }
  }

  lemma ReleaseKeepsInv(s: State, t: Tid, base: map<Tid, Priority>)
    requires Inv(s, base) && Enabled(s, ReleaseBy(t))
    ensures Inv(Next(s, ReleaseBy(t), Prio, base), base)
  {
    StepKeepsSound(s, ReleaseBy(t), Prio, base);
    if s.waiters != [] {
      TailMembers(s.waiters);
      assert s.waiters[0] in s.waiters;
    }
  }

  lemma TimeoutKeepsInv(s: State, t: Tid, base: map<Tid, Priority>)
    requires Inv(s, base) && Enabled(s, Timeout(t))
    ensures Inv(Next(s, Timeout(t), Prio, base), base)
  {
    hide Sound, Without;
    StepKeepsSound(s, Timeout(t), Prio, base);
    DistinctWaiters(s, base);
    WithoutMembers(s.waiters, t);
    WithoutSorted(base, s.waiters, t);
  }

  lemma DistinctWaiters(s: State, base: map<Tid, Priority>)
    requires Sound(s, base)
    ensures Distinct(s.waiters) && Known(s, base)
  {
  }

  lemma WithoutSorted(prio: map<Tid, Priority>, ws: seq<Tid>, t: Tid)
    requires (forall w :: w in ws ==> w in prio) && Sorted(prio, ws) && Distinct(ws)
    ensures (forall w :: w in Without(ws, t) ==> w in prio) && Sorted(prio, Without(ws, t))
  {
    WithoutMembers(ws, t);
    if t in ws {
      WithoutAt(ws, t);
      hide Without, IndexOf, Distinct;
      var k, r := IndexOf(ws, t), Without(ws, t);
      forall i, j | 0 <= i < j < |r|
        ensures prio[r[i]] <= prio[r[j]]
      {
        assert r[i] == ws[if i < k then i else i + 1] && r[j] == ws[if j < k then j else j + 1];
      }
    }
  }

  ghost predicate IsRun(s: State, steps: seq<Action>, flag: Flag, base: map<Tid, Priority>)
    requires Sound(s, base)
    decreases |steps|
  {
    steps != [] ==>
      && Enabled(s, steps[0])
      && (StepKeepsSound(s, steps[0], flag, base); IsRun(Next(s, steps[0], flag, base), steps[1..], flag, base))
  }

  ghost function After(s: State, steps: seq<Action>, flag: Flag, base: map<Tid, Priority>): (r: State)
    requires Sound(s, base) && IsRun(s, steps, flag, base)
    ensures Sound(r, base)
    decreases |steps|
  {
    if steps == [] then s else
      StepKeepsSound(s, steps[0], flag, base);
      After(Next(s, steps[0], flag, base), steps[1..], flag, base)
  }

  /** In every run of a priority-queued mutex the owner is never less urgent than a waiter, boosts, timeouts and hand-offs included. */
  lemma {:induction false} EveryRun(s: State, steps: seq<Action>, base: map<Tid, Priority>)
    requires Inv(s, base) && IsRun(s, steps, Prio, base)
    ensures Inv(After(s, steps, Prio, base), base)
    decreases |steps|
  {
    if steps != [] {
      match steps[0] {
        case TakeBy(t, wait) => TakeKeepsInv(s, t, wait, base);
        case ReleaseBy(t) => ReleaseKeepsInv(s, t, base);
        case Timeout(t) => TimeoutKeepsInv(s, t, base);
      }
      EveryRun(Next(s, steps[0], Prio, base), steps[1..], base);
    }
  }

  /** The last release gives every thread its own priority back, and whoever comes next is the most urgent waiter. */
  lemma LastRelease(s: State, t: Tid, flag: Flag, base: map<Tid, Priority>)
    requires Sound(s, base) && Enabled(s, ReleaseBy(t)) && s.owner == Some(t) && s.hold == 1
    ensures var s' := Next(s, ReleaseBy(t), flag, base);
      && s'.prio == base
      && (s'.owner.None? <==> s.waiters == [])
      && (s.waiters != [] ==> s'.owner == Some(s.waiters[0]) && s'.waiters == s.waiters[1..])
    ensures flag == Prio && InOrder(s, base) && s.waiters != [] ==>
      forall w :: w in s.waiters ==> base[s.waiters[0]] <= base[w]
  {
    assert s.prio[t := s.original] == base;
  }

  // ---- nested takes, and what is lent

  /** Who comes away with the mutex, who is turned away, and who waits; only the owner can release. */
  lemma WhoTakes(s: State, t: Tid, wait: bool, flag: Flag, base: map<Tid, Priority>)
    requires Sound(s, base) && Enabled(s, TakeBy(t, wait))
    ensures var (s', r) := Take(s, t, wait, flag);
      && (r == Taken <==> s'.owner == Some(t)) && (r == Taken <==> s.owner.None? || s.owner == Some(t))
      && (r == Suspended <==> t in s'.waiters) && (r == Suspended <==> s.owner.Some? && s.owner != Some(t) && wait)
      && (r == Refused ==> s' == s)
    ensures Release(s, t).1 <==> s.owner == Some(t)
    ensures s.owner != Some(t) ==> Release(s, t).0 == s
  {
    if s.owner.Some? && s.owner != Some(t) && wait {
      var p := Take(s, t, wait, flag).0.prio;
      InsertMembers(s.waiters, Position(flag, p, s.waiters, p[t]), t);
    }
  }

  /** A waiter whose time is up leaves the queue, and nothing else changes; what it has lent stays lent. */
  lemma TimeoutExactly(s: State, t: Tid, flag: Flag, base: map<Tid, Priority>)
    requires Sound(s, base) && Enabled(s, Timeout(t))
    ensures var s' := Next(s, Timeout(t), flag, base);
      && s' == s.(waiters := s'.waiters) && (t !in s.waiters ==> s' == s)
      && forall k :: 0 <= k < |s.waiters| && s.waiters[k] == t ==> s'.waiters == s.waiters[..k] + s.waiters[k + 1..]
  {
    hide Without;
    forall k | 0 <= k < |s.waiters| && s.waiters[k] == t
      ensures Without(s.waiters, t) == s.waiters[..k] + s.waiters[k + 1..]
    {
      DistinctIndexOf(s.waiters, k);
    }
    if t !in s.waiters { WithoutAbsent(s.waiters, t); }
  }

  /** A release undoes a nested take. */
  lemma NestedTake(s: State, t: Tid, wait: bool, flag: Flag, base: map<Tid, Priority>)
    requires Sound(s, base) && Enabled(s, TakeBy(t, wait)) && s.owner == Some(t)
    ensures Sound(Next(s, TakeBy(t, wait), flag, base), base)
    ensures Next(Next(s, TakeBy(t, wait), flag, base), ReleaseBy(t), flag, base) == s
  {
    StepKeepsSound(s, TakeBy(t, wait), flag, base);
  }

  /** What has happened since the present owner came to own the mutex: its takes less its releases, and who has waited for it. */
  datatype Tenure = Tenure(held: nat, asked: set<Tid>)

  /** The tenure behind a step, by who calls and who owns. */
  function Onwards(h: Tenure, s: State, a: Action, s': State): Tenure {
    if s'.owner != s.owner then Tenure(if s'.owner.Some? then 1 else 0, {})
    else if s.owner == Some(a.t) && a.TakeBy? then h.(held := h.held + 1)
    else if s.owner == Some(a.t) && a.ReleaseBy? && h.held > 0 then h.(held := h.held - 1)
    else if s.owner.Some? && a.TakeBy? && a.wait then h.(asked := h.asked + {a.t})
    else h
  }

  /** p is the most urgent priority that threads in ts have of their own. */
  ghost predicate MostUrgent(p: Priority, ts: set<Tid>, base: map<Tid, Priority>) {
    && (exists t :: t in ts && t in base && base[t] == p)
    && forall t :: t in ts && t in base ==> p <= base[t]
  }

  /** hold is the count of the tenure, and the owner runs at the most urgent priority among its own and those that have waited. */
  ghost predicate Agrees(s: State, h: Tenure, base: map<Tid, Priority>)
    requires Sound(s, base)
  {
    && s.hold == h.held && (s.owner.Some? <==> h.held > 0)
    && (s.owner.Some? ==> MostUrgent(s.prio[s.owner.value], {s.owner.value} + h.asked, base))
  }

  lemma StepAgrees(s: State, h: Tenure, a: Action, flag: Flag, base: map<Tid, Priority>)
    requires Sound(s, base) && Enabled(s, a) && Agrees(s, h, base)
    ensures var s' := Next(s, a, flag, base);
      && Sound(s', base) && Agrees(s', Onwards(h, s, a, s'), base)
      && (a.ReleaseBy? && s.owner == Some(a.t) ==> (s'.owner == s.owner <==> h.held > 1))
  {
    hide InsertAt, FirstBelow, Without;
    StepKeepsSound(s, a, flag, base);
    var s' := Next(s, a, flag, base);
    if a.TakeBy? && s.owner.Some? && s.owner != Some(a.t) && a.wait {
      AskedLends(s.prio[s.owner.value], {s.owner.value} + h.asked, a.t, base);
      assert {s.owner.value} + (h.asked + {a.t}) == {s.owner.value} + h.asked + {a.t};
    } else if s'.owner != s.owner && s'.owner.Some? {
      AloneUrgent(s'.owner.value, base);
      assert {s'.owner.value} + {} == {s'.owner.value};
      if a.ReleaseBy? { assert s.waiters[0] in s.waiters; }
    }
  }

  lemma AskedLends(p: Priority, ts: set<Tid>, t: Tid, base: map<Tid, Priority>)
    requires MostUrgent(p, ts, base) && t in base
    ensures MostUrgent(if base[t] < p then base[t] else p, ts + {t}, base)
  {
    var u :| u in ts && u in base && base[u] == p;
    assert u in ts + {t} && t in ts + {t};
  }

  lemma AloneUrgent(t: Tid, base: map<Tid, Priority>)
    requires t in base
    ensures MostUrgent(base[t], {t}, base)
  {
    assert t in {t};
  }

  /** The tenure at the end of a run. */
  ghost function TenureAfter(h: Tenure, s: State, steps: seq<Action>, flag: Flag, base: map<Tid, Priority>): Tenure
    requires Sound(s, base) && IsRun(s, steps, flag, base)
    decreases |steps|
  {
    if steps == [] then h else
      StepKeepsSound(s, steps[0], flag, base);
      var s' := Next(s, steps[0], flag, base);
      TenureAfter(Onwards(h, s, steps[0], s'), s', steps[1..], flag, base)
  }

  /** Over every run, whatever the queue: hold counts the owner's takes less its releases since it came to own the mutex, and the
      owner runs exactly at the most urgent priority among its own and those that have waited for it since then. */
  lemma {:induction false} EveryTenure(h: Tenure, s: State, steps: seq<Action>, flag: Flag, base: map<Tid, Priority>)
    requires Sound(s, base) && IsRun(s, steps, flag, base) && Agrees(s, h, base)
    ensures Agrees(After(s, steps, flag, base), TenureAfter(h, s, steps, flag, base), base)
    decreases |steps|
  {
    hide Sound, Agrees, Next, Enabled, Onwards;
    if steps != [] {
      StepAgrees(s, h, steps[0], flag, base);
      var s' := Next(s, steps[0], flag, base);
      EveryTenure(Onwards(h, s, steps[0], s'), s', steps[1..], flag, base);
    }
  }

  /** A free mutex is where this begins. */
  lemma FreeAgrees(base: map<Tid, Priority>)
    ensures Sound(State(1, 0, NO_PRIORITY, None, [], base), base) && Agrees(State(1, 0, NO_PRIORITY, None, [], base), Tenure(0, {}), base)
  {
  }

  // ---- first-come queues

  /** The last release of a mutex with waiters, the first of whom is less urgent than another. */
  ghost predicate Inverts(s: State, a: Action, base: map<Tid, Priority>)
    requires Known(s, base)
  {
    && a.ReleaseBy? && s.owner == Some(a.t) && s.hold == 1 && s.waiters != []
    && exists w :: w in s.waiters && base[w] < base[s.waiters[0]]
  }

  /** With a FIFO queue every step keeps the owner in the lead, except for exactly these hand-offs. */
  lemma FifoStep(s: State, a: Action, base: map<Tid, Priority>)
    requires Sound(s, base) && Enabled(s, a) && OwnerLeads(s, base)
    ensures Sound(Next(s, a, Fifo, base), base)
    ensures OwnerLeads(Next(s, a, Fifo, base), base) <==> !Inverts(s, a, base)
  {
    StepKeepsSound(s, a, Fifo, base);
    match a
    case TakeBy(t, wait) =>
      if s.owner.Some? && s.owner != Some(t) && wait {
        InsertMembers(s.waiters, |s.waiters|, t);
      }
    case ReleaseBy(t) =>
      if s.owner == Some(t) && s.hold == 1 && s.waiters != [] {
        LastRelease(s, t, Fifo, base);
        TailMembers(s.waiters);
        assert s.waiters[0] in s.waiters;
      }
    case Timeout(t) => WithoutMembers(s.waiters, t);
  }

  /** No step of the run is such a hand-off. */
  ghost predicate NeverInverts(s: State, steps: seq<Action>, base: map<Tid, Priority>)
    requires Sound(s, base) && IsRun(s, steps, Fifo, base)
    decreases |steps|
  {
    steps != [] ==>
      && !Inverts(s, steps[0], base)
      && (StepKeepsSound(s, steps[0], Fifo, base); NeverInverts(Next(s, steps[0], Fifo, base), steps[1..], base))
  }

  ghost predicate LeadsThroughout(s: State, steps: seq<Action>, base: map<Tid, Priority>)
    requires Sound(s, base) && IsRun(s, steps, Fifo, base)
    decreases |steps|
  {
    && OwnerLeads(s, base)
    && (steps != [] ==>
      (StepKeepsSound(s, steps[0], Fifo, base); LeadsThroughout(Next(s, steps[0], Fifo, base), steps[1..], base)))
  }

  /** A run of a FIFO mutex has the owner in the lead from beginning to end exactly when nobody is handed the mutex in front
      of a more urgent waiter. */
  lemma {:induction false} FifoRun(s: State, steps: seq<Action>, base: map<Tid, Priority>)
    requires Sound(s, base) && OwnerLeads(s, base) && IsRun(s, steps, Fifo, base)
    ensures LeadsThroughout(s, steps, base) <==> NeverInverts(s, steps, base)
    ensures NeverInverts(s, steps, base) ==> OwnerLeads(After(s, steps, Fifo, base), base)
    decreases |steps|
  {
    hide OwnerLeads, Inverts, Next, Distinct;
    if steps != [] {
      FifoStep(s, steps[0], base);
      if !Inverts(s, steps[0], base) {
        FifoRun(Next(s, steps[0], Fifo, base), steps[1..], base);
      }
    }
  }

  lemma RunOne(s: State, steps: seq<Action>, rest: seq<Action>, flag: Flag, base: map<Tid, Priority>)
    requires Sound(s, base) && steps != [] && steps[1..] == rest
    requires Enabled(s, steps[0]) && Sound(Next(s, steps[0], flag, base), base)
    requires IsRun(Next(s, steps[0], flag, base), rest, flag, base)
    ensures IsRun(s, steps, flag, base)
    ensures After(s, steps, flag, base) == After(Next(s, steps[0], flag, base), rest, flag, base)
  {
  }

  /** Three threads suffice for it to fail: 0 owns, 1 and then the more urgent 2 wait in arrival order, 0 releases. */
  lemma FifoInversion(base: map<Tid, Priority>)
    requires base == map[0 := 10, 1 := 20, 2 := 5]
    ensures var s := State(1, 0, NO_PRIORITY, None, [], base);
      var steps := [TakeBy(0, true), TakeBy(1, true), TakeBy(2, true), ReleaseBy(0)];
      && Inv(s, base) && IsRun(s, steps, Fifo, base)
      && !OwnerLeads(After(s, steps, Fifo, base), base)
  {
    hide IsRun, After, FirstBelow, Sound;
    var lent := map[0 := 5, 1 := 20, 2 := 5];
    var s0 := State(1, 0, NO_PRIORITY, None, [], base);
    var s1 := State(0, 1, 10, Some(0), [], base);
    var s2 := State(0, 1, 10, Some(0), [1], base);
    var s3 := State(0, 1, 10, Some(0), [1, 2], lent);
    var s4 := State(0, 1, 20, Some(1), [2], base);
    FreeSound(base);
    StepKeepsSound(s0, TakeBy(0, true), Fifo, base);
    assert Next(s0, TakeBy(0, true), Fifo, base) == s1;
    StepKeepsSound(s1, TakeBy(1, true), Fifo, base);
    assert Next(s1, TakeBy(1, true), Fifo, base) == s2;
    StepKeepsSound(s2, TakeBy(2, true), Fifo, base);
    assert base[0 := 5] == lent;
    assert Next(s2, TakeBy(2, true), Fifo, base) == s3;
    StepKeepsSound(s3, ReleaseBy(0), Fifo, base);
    assert lent[0 := 10] == base;
    assert Next(s3, ReleaseBy(0), Fifo, base) == s4;
    Nothing(s4, Fifo, base);
    RunOne(s3, [ReleaseBy(0)], [], Fifo, base);
    RunOne(s2, [TakeBy(2, true), ReleaseBy(0)], [ReleaseBy(0)], Fifo, base);
    RunOne(s1, [TakeBy(1, true), TakeBy(2, true), ReleaseBy(0)], [TakeBy(2, true), ReleaseBy(0)], Fifo, base);
    RunOne(s0, [TakeBy(0, true), TakeBy(1, true), TakeBy(2, true), ReleaseBy(0)],
           [TakeBy(1, true), TakeBy(2, true), ReleaseBy(0)], Fifo, base);
    assert 2 in s4.waiters;
  }

  lemma FreeSound(base: map<Tid, Priority>)
    ensures Inv(State(1, 0, NO_PRIORITY, None, [], base), base)
  {
  }

  lemma Nothing(s: State, flag: Flag, base: map<Tid, Priority>)
    requires Sound(s, base)
    ensures IsRun(s, [], flag, base) && After(s, [], flag, base) == s
  {
  }
}
