// What each kernel call does to the thread it is about, and that it does nothing else.
module ThreadLaws {
  import opened Seqs
  import opened Sched
  import opened SchedLaws

  /** All threads but t are as they were, and so is their order on every list. */
  ghost predicate OthersStay(s: State, s': State, t: Tid) {
    && s'.threads.Keys == s.threads.Keys && (forall u :: u in s.threads && u != t ==> s'.threads[u] == s.threads[u])
    && s'.lists.Keys == s.lists.Keys && forall k :: k in s.lists ==> Without(s'.lists[k], t) == Without(s.lists[k], t)
  }

  /** t is the last one on list k and on no other. */
  ghost predicate Last(lists: Lists, k: Key, t: Tid) {
    k in lists && lists[k] != [] && lists[k][|lists[k]| - 1] == t && forall j :: On(lists, j, t) ==> j == k
  }

  /** t can run: it does, or it is the last one on the ready list of its priority. */
  ghost predicate Queued(s: State, t: Tid)
    requires t in s.threads
  {
    if t == s.current then s.threads[t].stat == Running && Off(s.lists, t)
    else s.threads[t].stat == Ready && Last(s.lists, ReadyList(s.threads[t].prio), t)
  }

  // ---- lists without t

  lemma WithoutTwice(l: seq<Tid>, t: Tid)
    requires Distinct(l)
    ensures Without(Without(l, t), t) == Without(l, t)
  {
    WithoutMembers(l, t);
  }

  lemma WithoutInserted(l: seq<Tid>, i: nat, t: Tid)
    requires t !in l && i <= |l|
    ensures Without(InsertAt(l, i, t), t) == l
  {
    var r := InsertAt(l, i, t);
    assert r[i] == t;
    FirstIndex(r, i, t);
    assert RemoveAt(r, i) == l;
  }

  lemma FirstIndex(l: seq<Tid>, i: nat, t: Tid)
    requires i < |l| && l[i] == t && forall j :: 0 <= j < i ==> l[j] != t
    ensures IndexOf(l, t) == i
  {
  }

  /** Taking t off the lists leaves the others in order. */
  lemma UnlinkStays(s: State, t: Tid, th: Thread)
    requires Inv(s) && t in s.threads
    ensures OthersStay(s, s.(lists := Unlink(s.lists, t), threads := s.threads[t := th]), t)
  {
    forall k | k in s.lists
      ensures Without(Unlink(s.lists, t)[k], t) == Without(s.lists[k], t)
    {
      WithoutTwice(s.lists[k], t);
    }
  }

  /** A thread off the lists is hung on list k at position i. */
  lemma HangStays(s0: State, s: State, t: Tid, k: Key, i: nat)
    requires Base(s) && Off(s.lists, t) && OthersStay(s0, s, t) && k in s.lists && i <= |s.lists[k]|
    ensures OthersStay(s0, s.(lists := s.lists[k := InsertAt(s.lists[k], i, t)]), t)
  {
    hide InsertAt, Without, Distinct;
    assert !On(s.lists, k, t);
    WithoutInserted(s.lists[k], i, t);
    WithoutAbsent(s.lists[k], t);
  }

  /** rt_schedule_insert_thread on a thread off the lists. */
  lemma InsertQueues(s0: State, s: State, t: Tid)
    requires InvBut(s, t) && OthersStay(s0, s, t)
    ensures Queued(Insert(s, t), t) && OthersStay(s0, Insert(s, t), t)
    ensures Insert(s, t).threads[t] == s.threads[t].(stat := if t == s.current then Running else Ready)
  {
    hide Without, Distinct;
    if t != s.current {
      var k := ReadyList(s.threads[t].prio);
      HangStays(s0, s, t, k, |s.lists[k]|);
      AppendOn(s.lists, k, t);
      assert InsertAt(s.lists[k], |s.lists[k]|, t) == s.lists[k] + [t];
    }
  }

  // ---- one call after the other

  /** rt_thread_suspend succeeds exactly on the thread that runs and on threads on their ready list; then the thread is on no list. */
  lemma SuspendExactly(s: State, t: Tid)
    requires Inv(s) && t in s.threads
    ensures var (s', ok) := Suspend(s, t);
      && (ok <==> (t == s.current && s.threads[t].stat == Running) || On(s.lists, ReadyList(s.threads[t].prio), t))
      && (!ok ==> s' == s)
      && (ok ==> s'.threads == s.threads[t := s.threads[t].(stat := Suspended)] && Off(s'.lists, t) && OthersStay(s, s', t))
      && s'.current == s.current && s'.nest == s.nest
  {
    hide Without, Distinct, Unlink;
    assert Placed(s, t);
    UnlinkOn(s.lists, t);
    UnlinkStays(s, t, s.threads[t].(stat := Suspended));
  }

  /** So a running thread can always wait, wherever its place on the wait list is to be. */
  lemma RunningCanBlock(s: State, obj: nat, i: nat)
    requires Inv(s) && s.threads[s.current].stat == Running && WaitList(obj) in s.lists && i <= |s.lists[WaitList(obj)]|
    ensures Enabled(s, Block(s.current, obj, i))
    ensures var s' := Do(s, Block(s.current, obj, i));
      && s'.threads == s.threads[s.current := s.threads[s.current].(stat := Suspended)]
      && s'.lists == s.lists[WaitList(obj) := InsertAt(s.lists[WaitList(obj)], i, s.current)]
  {
    hide Without, Distinct, InsertAt, Unlink;
    OffInit(s, s.current);
    UnlinkOff(s.lists, s.current);
  }

  /** A thread that is suspended on a wait list has the place it was given, and the others keep theirs. */
  lemma BlockExactly(s: State, t: Tid, obj: nat, i: nat)
    requires Inv(s) && Enabled(s, Block(t, obj, i))
    ensures var s' := Do(s, Block(t, obj, i));
      && s'.threads == s.threads[t := s.threads[t].(stat := Suspended)] && OthersStay(s, s', t)
      && WaitList(obj) in s'.lists && i < |s'.lists[WaitList(obj)]| && s'.lists[WaitList(obj)][i] == t
      && forall k :: On(s'.lists, k, t) ==> k == WaitList(obj)
  {
    hide Without, Distinct, Unlink;
    SuspendExactly(s, t);
    SuspendKeepsInv(s, t);
    var s1 := Suspend(s, t).0;
    HangStays(s, s1, t, WaitList(obj), i);
    PutOn(s1.lists, WaitList(obj), i, t);
  }

  /** rt_thread_resume succeeds exactly on a suspended thread, which is last in line then. */
  lemma ResumeExactly(s: State, t: Tid)
    requires Inv(s) && t in s.threads
    ensures ReadyList(s.threads[t].prio) in s.lists
    ensures var (s', ok) := Resume(s, t);
      && (ok <==> s.threads[t].stat == Suspended)
      && (!ok ==> s' == s)
      && (ok ==> Queued(s', t) && OthersStay(s, s', t) && s'.threads[t] == s.threads[t].(stat := s'.threads[t].stat))
  {
    hide Without, Distinct, Unlink, Insert, Queued;
    Spread(s);
    if s.threads[t].stat == Suspended {
      UnlinkStays(s, t, s.threads[t]);
      assert s.threads[t := s.threads[t]] == s.threads;
      RemoveDetaches(s, t);
      InsertQueues(s, Remove(s, t), t);
    }
  }

  /** rt_thread_timeout does the same, and leaves word that the time is up. */
  lemma TimeoutExactly(s: State, t: Tid)
    requires Inv(s) && Enabled(s, TimeOut(t))
    ensures var s' := Do(s, TimeOut(t));
      && t in s'.threads && Queued(s', t) && OthersStay(s, s', t)
      && s'.threads[t] == s.threads[t].(stat := s'.threads[t].stat, timedOut := true)
  {
    hide Without, Distinct, Unlink, Insert, Queued;
    Spread(s);
    var th := s.threads[t].(timedOut := true);
    UnlinkStays(s, t, th);
    RemoveDetaches(s, t);
    RewriteBut(Remove(s, t), t, th);
    InsertQueues(s, Remove(s, t).(threads := s.threads[t := th]), t);
  }

  /** The priority given is the priority had, in whatever state the thread is; a ready thread is last in line at it, and any other
      keeps its place. */
  lemma PriorityExactly(s: State, t: Tid, p: nat)
    requires Inv(s) && Enabled(s, Reprice(t, p))
    ensures var s' := Do(s, Reprice(t, p));
      && t in s'.threads && s'.threads[t] == s.threads[t].(prio := p) && OthersStay(s, s', t)
      && (s.threads[t].stat == Ready ==> Last(s'.lists, ReadyList(p), t))
      && (s.threads[t].stat != Ready ==> s'.lists == s.lists)
  {
    hide Without, Distinct, Unlink, Insert;
    Spread(s);
    var th := s.threads[t].(prio := p);
    if s.threads[t].stat == Ready {
      UnlinkStays(s, t, th);
      RemoveDetaches(s, t);
      RewriteBut(Remove(s, t), t, th);
      InsertQueues(s, SetPrio(Remove(s, t), t, p), t);
      assert Placed(s, t);
    }
  }

  /** rt_thread_startup: last in line at the initial priority, without a stale yield. */
  lemma StartExactly(s: State, t: Tid)
    requires Inv(s) && Enabled(s, Start(t))
    ensures var s' := Do(s, Start(t));
      && t in s'.threads && Queued(s', t) && OthersStay(s, s', t)
      && s'.threads[t] == s.threads[t].(stat := Ready, prio := s.threads[t].initPrio, flagged := false)
  {
    hide Without, Distinct, Unlink, Insert, Queued;
    Spread(s);
    assert Placed(s, t);
    var th := s.threads[t].(prio := s.threads[t].initPrio, stat := Suspended, flagged := false);
    UnlinkStays(s, t, th);
    RemoveDetaches(s, t);
    RewriteBut(Remove(s, t), t, th);
    InsertQueues(s, Remove(s, t).(threads := s.threads[t := th]), t);
  }

  /** A closed thread is on no list but, if it is kept, at the front of the defunct ones. */
  ghost predicate Buried(s: State, s': State, t: Tid, keep: bool)
    requires t in s.threads
  {
    && OthersStay(s, s', t) && t in s'.threads && s'.threads[t] == s.threads[t].(stat := Closed, flagged := false)
    && (forall k :: On(s'.lists, k, t) ==> keep && k == Defunct)
    && (keep ==> Defunct in s'.lists && s'.lists[Defunct] != [] && s'.lists[Defunct][0] == t)
  }

  lemma BuryExactly(s0: State, s: State, t: Tid, keep: bool)
    requires InvBut(s, t) && OthersStay(s0, s, t) && t in s0.threads && s.threads[t] == s0.threads[t]
    ensures Defunct in s.lists && Buried(s0, Bury(s, t, keep), t, keep)
  {
    hide Without, Distinct;
    if keep {
      HangStays(s0, s, t, Defunct, 0);
      PrependOn(s.lists, Defunct, t);
      assert InsertAt(s.lists[Defunct], 0, t) == [t] + s.lists[Defunct];
    }
  }

  /** rt_thread_detach and rt_thread_delete; a second time they do nothing. */
  lemma CloseExactly(s: State, t: Tid, keep: bool)
    requires Inv(s) && Enabled(s, Delete(t, keep))
    ensures var s' := Do(s, Delete(t, keep));
      if s.threads[t].stat == Closed then s' == s else Buried(s, s', t, keep)
  {
    hide Without, Distinct, Unlink, Bury, Buried;
    Spread(s);
    UnlinkStays(s, t, s.threads[t]);
    assert s.threads[t := s.threads[t]] == s.threads;
    if s.threads[t].stat == Init {
      OffInit(s, t);
      UnlinkOff(s.lists, t);
      InvToBut(s, t);
      BuryExactly(s, s, t, keep);
    } else if s.threads[t].stat != Closed {
      RemoveDetaches(s, t);
      BuryExactly(s, Remove(s, t), t, keep);
    }
  }

  lemma ExitExactly(s: State, keep: bool)
    requires Inv(s)
    ensures s.current in s.threads && Buried(s, Do(s, Exit(keep)), s.current, keep)
  {
    hide Without, Distinct, Unlink, Bury, Buried;
    Spread(s);
    UnlinkStays(s, s.current, s.threads[s.current]);
    assert s.threads[s.current := s.threads[s.current]] == s.threads;
    RemoveDetaches(s, s.current);
    BuryExactly(s, Remove(s, s.current), s.current, keep);
  }

  /** A tick takes one from the slice of the running thread; when none is left, the slice is whole again and the thread flagged. */
  lemma TickExactly(s: State)
    requires Inv(s) && Enabled(s, ClockTick)
    ensures var s', th := Do(s, ClockTick), s.threads[s.current];
      && s' == s.(threads := s'.threads) && s'.threads.Keys == s.threads.Keys
      && (forall u :: u in s.threads && u != s.current ==> s'.threads[u] == s.threads[u])
      && s'.threads[s.current] == th.(left := s'.threads[s.current].left, flagged := s'.threads[s.current].flagged)
      && (th.left > 1 ==> s'.threads[s.current].left == th.left - 1 && s'.threads[s.current].flagged == th.flagged)
      && (th.left == 1 ==> s'.threads[s.current].left == th.slice && s'.threads[s.current].flagged)
  {
    hide Inv;
    Spread(s);
  }

  // ---- who gets the processor

  predicate GivesWay(th: Thread, p: nat) {
    th.stat != Running || p < th.prio || (p == th.prio && th.flagged)
  }

  /** rt_schedule changes hands exactly if the scheduler is unlocked and a thread is ready that the running one has to give way
      to: a more urgent one, or after its slice one of its own priority. A current thread that does not run gives way to any. */
  lemma SwitchesExactly(s: State)
    requires Inv(s)
    ensures var th := s.threads[s.current];
      Schedule(s).current != s.current <==>
        s.nest == 0 && exists p: nat, t: Tid :: On(s.lists, ReadyList(p), t) && GivesWay(th, p)
    ensures Schedule(s).current == s.current ==> Schedule(s) == s
  {
    hide Switch, Distinct, On;
    var th := s.threads[s.current];
    if SomeReady(s.lists) {
      var p := Top(s.lists);
      HeadOn(s.lists, p);
      NextIsReady(s, p);
      SwitchGoes(s, p);
      forall q: nat, t: Tid | On(s.lists, ReadyList(q), t)
        ensures p <= q
      {
        OnWaits(s.lists, q, t);
      }
    } else {
      forall q: nat, t: Tid
        ensures !On(s.lists, ReadyList(q), t)
      {
        if On(s.lists, ReadyList(q), t) { OnWaits(s.lists, q, t); }
      }
    }
  }

  lemma SwitchGoes(s: State, p: nat)
    requires Base(s) && Waiting(s.lists, p)
    ensures Switch(s, p).current == s.lists[ReadyList(p)][0]
  {
  }

  /** The one that has waited longest at that priority takes over; one that had the processor is last in line now, with a fresh
      claim, and nobody else is touched. */
  lemma SwitchExactly(s: State, p: nat)
    requires Inv(s) && Waiting(s.lists, p)
    ensures var s', from, next := Switch(s, p), s.current, s.lists[ReadyList(p)][0];
      && s'.current == next && next in s'.threads && next in s.threads && next != from && s'.nest == s.nest
      && s'.threads[next] == s.threads[next].(stat := Running) && Off(s'.lists, next)
      && s'.threads.Keys == s.threads.Keys && (forall u :: u in s.threads && u != from && u != next ==> s'.threads[u] == s.threads[u])
      && (s.threads[from].stat == Running ==>
          s'.threads[from] == s.threads[from].(stat := Ready, flagged := false) && Last(s'.lists, ReadyList(s.threads[from].prio), from))
      && (s.threads[from].stat != Running ==> s'.threads[from] == s.threads[from])
  {
    hide Distinct, On, Unlink, Append;
    var from, next := s.current, s.lists[ReadyList(p)][0];
    NextIsReady(s, p);
    assert Placed(s, from);
    if s.threads[from].stat == Running {
      OffInit(s, from);
      var k := ReadyList(s.threads[from].prio);
      var lists2 := Append(s.lists, k, from);
      AppendOn(s.lists, k, from);
      AppendedLast(s.lists, k, from);
      UnlinkOn(lists2, next);
      UnlinkLast(lists2, k, from, next);
    } else {
      UnlinkOn(s.lists, next);
    }
  }

  lemma AppendedLast(lists: Lists, k: Key, t: Tid)
    requires k in lists
    ensures k in Append(lists, k, t) && var l := Append(lists, k, t)[k]; l != [] && l[|l| - 1] == t
  {
  }

  lemma UnlinkLast(lists: Lists, k: Key, t: Tid, u: Tid)
    requires k in lists && lists[k] != [] && lists[k][|lists[k]| - 1] == t && t != u
    ensures k in Unlink(lists, u) && var l := Unlink(lists, u)[k]; l != [] && l[|l| - 1] == t
  {
    if u in lists[k] { WithoutAt(lists[k], u); }
  }

  // ---- critical sections

  /** While the scheduler is locked nobody takes the processor, whatever is called; only the release that unlocks it lets others in. */
  lemma LockedStays(s: State, a: Action)
    requires Inv(s) && Enabled(s, a) && s.nest > 0 && (a.Release? ==> s.nest > 1)
    ensures Next(s, a).current == s.current && Next(s, a).nest == s.nest + (if a.Lock? then 1 else if a.Release? then -1 else 0)
  {
    hide Inv, Unlink, Append;
    DoKeepsInv(s, a);
    Spread(Do(s, a));
  }

  /** A critical section inside another one has no effect of its own; the outermost one ends with the scheduler. */
  lemma LockThenRelease(s: State)
    requires Inv(s)
    ensures Inv(Next(s, Lock)) && Next(Next(s, Lock), Release) == if s.nest > 0 then s else Schedule(s)
  {
    hide Inv, Schedule;
    DoKeepsInv(s, Lock);
  }

  // ---- which calls let others in

  /** Starting, blocking, timing out, exiting, yielding, the end of a slice and of a critical section lead to the scheduler. */
  lemma LeadsToSchedule(s: State, a: Action, idle: Tid)
    requires Inv(s) && Enabled(s, a) && Alive(s, idle) && Spares(s, a, idle)
    requires s.nest == 0 || (a.Release? && s.nest == 1)
    requires a.Start? || a.Block? || a.TimeOut? || a.Exit? || a.Yield? || a.Release? || (a.ClockTick? && s.threads[s.current].left == 1)
    ensures Inv(Next(s, a)) && Settled(Next(s, a))
  {
    hide Inv, Unlink, Append, Distinct, Schedule, Settled, Alive, Startup, Expire, Enqueue, Leave;
    StepKeepsAll(s, a, idle);
    if !a.Release? { NestStays(s, a); }
  }

  lemma NestStays(s: State, a: Action)
    requires Inv(s) && Enabled(s, a) && !a.Lock? && !a.Release?
    ensures Do(s, a).nest == s.nest
  {
    hide Inv, Unlink, Append;
  }

  /** Suspending another thread, resuming, repricing, deleting and ticks within a slice do not. */
  lemma LetsNobodyIn(s: State, a: Action)
    requires Inv(s) && Enabled(s, a)
    requires a.Halt? || a.Wake? || a.Reprice? || a.Delete? || a.Lock? || (a.ClockTick? && s.threads[s.current].left > 1)
    ensures Next(s, a).current == s.current
  {
    hide Inv, Unlink, Append;
  }
}
