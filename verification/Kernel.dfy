// The scheduler as an object: the ready table with its bitmap, the thread fields that
// cache the bit masks, and the kernel calls that update them. Each call is proved to do
// to the lists and thread states what its namesake on values in Sched does; the bitmap
// and the cached masks, which the values do not have, are kept sound beside them.
module Kernel {
  import opened Seqs
  import opened Sched
  import opened SchedLaws
  import Bits = ReadyMap

  class KernelState {
    const wide: bool                      // RT_THREAD_PRIORITY_MAX > 32
    var threads: map<Tid, Thread>
    var attributes: map<Tid, Bits.Place>  // number, number_mask, high_mask
    var lists: Lists                      // rt_thread_priority_table, the wait lists, rt_thread_defunct
    var ready: Bits.Map                   // rt_thread_ready_priority_group, rt_thread_ready_table
    var current: Tid                      // rt_current_thread
    var nest: nat                         // rt_scheduler_lock_nest

    ghost function Model(): State
      reads this
    {
      State(threads, lists, current, nest)
    }

    /** A bit is set exactly for a list that is not empty. */
    ghost predicate BitsAgree()
      reads this
    {
      && Bits.Sound(ready) && ready.Wide? == wide
      && forall p: nat :: Bits.Marked(ready, p) <==> Waiting(lists, p)
    }

    ghost predicate MasksAgree()
      reads this
    {
      forall t :: t in threads ==>
        && threads[t].initPrio < Bits.Limit(wide)
        && (threads[t].stat != Init && (threads[t].stat != Closed || t == current) ==> MaskAgrees(t))
    }

    ghost predicate MaskAgrees(t: Tid)
      reads this
    {
      && t in threads && threads[t].prio < Bits.Limit(wide)
      && t in attributes && attributes[t] == Bits.Attributes(wide, threads[t].prio)
    }

    ghost predicate Valid()
      reads this
    {
      Inv(Model()) && BitsAgree() && MasksAgree()
    }

    /** rt_system_scheduler_init. Until rt_system_scheduler_start nobody is current; boot, a closed thread on no list,
        stands for that. All others wait for rt_thread_startup. */
    constructor (wide: bool, born: map<Tid, Thread>, boot: Tid, objects: set<nat>)
      requires boot in born && forall t :: t in born ==>
        born[t].stat == (if t == boot then Closed else Init) && born[t].initPrio < Bits.Limit(wide) && born[t].prio < Bits.Limit(wide)
      ensures this.wide == wide && Valid()
      ensures Model() == State(born, EmptyLists(objects), boot, 0)
    {
      hide Bits.Sound, Bits.Marked, Bits.Attributes, Inv, EmptyLists;
      this.wide := wide;
      threads := born;
      attributes := map[boot := Bits.Attributes(wide, born[boot].prio)];
      lists := EmptyLists(objects);
      ready := if wide then Bits.Wide(0, seq(32, _ => 0)) else Bits.Narrow(0);
      current := boot;
      nest := 0;
      new;
      StartsInv(born, boot, objects);
      StartsUnmarked(ready);
    }

    /** rt_system_scheduler_start: the most urgent thread that has been started gets the processor. */
    method StartScheduler()
      requires Valid() && nest == 0 && threads[current].stat == Closed && SomeReady(lists)
      modifies this`threads, this`lists, this`ready, this`current
      ensures Valid() && Model() == Schedule(old(Model())) && Settled(Model())
    {
      hide Bits.Sound, Bits.Marked, Bits.Attributes, Unlink, Append, Distinct, IsTop, Waiting, SomeReady, On, Switch, Inv, Settled;
      ScheduleKeepsInv(Model());
      ScheduleSettles(Model());
      Spread(Model());
      GroupTellsReady();
      var next, p := HighestPriorityThread();
      TopIs(lists, p);
      NextReady(Model(), p);
      SwitchTo(next, false, p);
    }

    /** rt_schedule_insert_thread */
    method InsertThread(t: Tid)
      requires MaskAgrees(t) && BitsAgree() && MasksAgree() && ReadyList(threads[t].prio) in lists
      modifies this`threads, this`lists, this`ready
      ensures Model() == Insert(old(Model()), t) && BitsAgree() && MasksAgree()
    {
      hide Bits.Marked, Bits.Mark;
      if t == current {
        threads := SetStat(threads, t, Running);
        return;
      }
      var p := threads[t].prio;
      threads := SetStat(threads, t, Ready);
      assert forall q: nat :: q != p ==> ReadyList(q) != ReadyList(p);
      lists := Append(lists, ReadyList(p), t);
      Bits.Marking(ready, p);
      ready := Bits.Mark(ready, attributes[t]);
    }

    /** rt_schedule_remove_thread */
    method RemoveThread(t: Tid)
      requires MaskAgrees(t) && BitsAgree() && MasksAgree() && ReadyList(threads[t].prio) in lists
      requires forall p :: On(lists, ReadyList(p), t) ==> p == threads[t].prio
      modifies this`lists, this`ready
      ensures Model() == Remove(old(Model()), t) && BitsAgree() && MasksAgree()
    {
      var p := threads[t].prio;
      UnlinkWaits(lists, t, p);
      lists := Unlink(lists, t);
      if lists[ReadyList(p)] == [] {
        Bits.Clearing(ready, p);
        ready := Bits.Clear(ready, attributes[t]);
      }
    }

    /** _get_highest_priority_thread */
    method HighestPriorityThread() returns (t: Tid, p: nat)
      requires BitsAgree() && ready.group != 0
      ensures IsTop(lists, p) && t == lists[ReadyList(p)][0]
    {
      Bits.Lookup(ready);
      p := Bits.Top(ready);
      assert Bits.Marked(ready, p);
      t := lists[ReadyList(p)][0];
    }

    lemma GroupTellsReady()
      requires BitsAgree()
      ensures ready.group != 0 <==> SomeReady(lists)
    {
      Bits.Lookup(ready);
      if ready.group != 0 {
        assert Waiting(lists, Bits.Top(ready));
      } else {
        forall p: nat
          ensures !Waiting(lists, p)
        {
          assert !Bits.Marked(ready, p);
        }
      }
    }

    /** The next thread leaves its ready list and runs. */
    method TakeOver(next: Tid)
      requires MaskAgrees(next) && BitsAgree() && MasksAgree() && ReadyList(threads[next].prio) in lists && threads[next].stat == Ready
      requires forall p :: On(lists, ReadyList(p), next) ==> p == threads[next].prio
      modifies this`lists, this`ready, this`threads
      ensures BitsAgree() && MasksAgree()
      ensures Model() == Remove(old(Model()), next).(threads := SetStat(old(threads), next, Running))
    {
      hide Bits.Sound, Bits.Marked, Bits.Attributes, Unlink, On, Waiting;
      RemoveThread(next);
      threads := SetStat(threads, next, Running);
    }

    /** The part of rt_schedule that changes hands: the loser, if still running, goes to the tail of its list. */
    method SwitchTo(next: Tid, insertFrom: bool, ghost p: nat)
      requires Valid() && Waiting(lists, p) && next == lists[ReadyList(p)][0]
      requires insertFrom <==> threads[current].stat == Running
      modifies this`threads, this`lists, this`ready, this`current
      ensures BitsAgree() && MasksAgree() && Model() == Switch(old(Model()), p)
    {
      hide Bits.Sound, Bits.Marked, Bits.Attributes, Unlink, Append, Distinct, IsTop, Waiting, SomeReady, On, Inv, AllDistinct, Bits.Limit;
      NextReady(Model(), p);
      Spread(Model());
      var from := current;
      if insertFrom {
        threads := threads[from := threads[from].(flagged := false)];
      }
      current := next;
      if insertFrom {
        InsertThread(from);
      }
      InsertedSwitch(old(Model()), p);
      TakeOver(next);
    }

    /** rt_schedule */
    method DoSchedule()
      requires Valid()
      modifies this`threads, this`lists, this`ready, this`current
      ensures Valid() && Model() == Schedule(old(Model()))
    {
      hide Bits.Sound, Bits.Marked, Bits.Attributes, Unlink, Append, Distinct, IsTop, Waiting, SomeReady, On, Switch, Inv;
      ScheduleKeepsInv(Model());
      Spread(Model());
      GroupTellsReady();
      if nest == 0 && ready.group != 0 {
        var next, p := HighestPriorityThread();
        TopIs(lists, p);
        NextReady(Model(), p);
        var insertFrom := false;
        if threads[current].stat == Running {
          if threads[current].prio < p {
            next := current;
          } else if threads[current].prio == p && !threads[current].flagged {
            next := current;
          } else {
            insertFrom := true;
          }
        }
        if next != current {
          SwitchTo(next, insertFrom, p);
        } else {
          StaysOff(Model());
          RemoveThread(current);
          threads := SetStat(threads, current, Running);
          assert threads == old(threads);
        }
      }
    }

    // ---- thread.c

    /** rt_thread_suspend; false stands for -RT_ERROR. */
    method SuspendThread(t: Tid) returns (ok: bool)
      requires Valid() && t in threads && (threads[t].stat == Running ==> t == current)
      modifies this`threads, this`lists, this`ready
      ensures Valid() && (Model(), ok) == Suspend(old(Model()), t)
      ensures ok <==> old(threads)[t].stat == Ready || old(threads)[t].stat == Running
    {
      hide Bits.Sound, Bits.Marked, Bits.Attributes, Unlink, Distinct, Inv, On, Waiting, InvBut, AllDistinct;
      Spread(Model());
      SuspendKeepsInv(Model(), t);
      if threads[t].stat != Ready && threads[t].stat != Running {
        return false;
      }
      OwnListOnly(Model(), t);
      RemoveThread(t);
      threads := SetStat(threads, t, Suspended);
      ok := true;
    }

    /** rt_thread_resume */
    method ResumeThread(t: Tid) returns (ok: bool)
      requires Valid() && t in threads
      modifies this`threads, this`lists, this`ready
      ensures ReadyList(old(threads)[t].prio) in old(lists)
      ensures Valid() && (Model(), ok) == Resume(old(Model()), t)
    {
      hide Bits.Sound, Bits.Marked, Bits.Attributes, Unlink, Append, Distinct, Inv, On, Waiting;
      Spread(Model());
      ResumeKeepsInv(Model(), t);
      if threads[t].stat != Suspended {
        return false;
      }
      UnlinkSuspended(Model(), t);
      lists := Unlink(lists, t);
      InsertThread(t);
      ok := true;
    }

    /** rt_thread_timeout */
    method TimeoutThread(t: Tid)
      requires Valid() && t in threads && threads[t].stat == Suspended
      modifies this`threads, this`lists, this`ready, this`current
      ensures Valid() && Enabled(old(Model()), TimeOut(t)) && Model() == Next(old(Model()), TimeOut(t))
    {
      hide Bits.Sound, Bits.Marked, Bits.Attributes, Unlink, Append, Distinct, Inv, On, Waiting, Schedule;
      Spread(Model());
      ExpireKeepsInv(Model(), t);
      UnlinkSuspended(Model(), t);
      threads := threads[t := threads[t].(timedOut := true)];
      lists := Unlink(lists, t);
      InsertThread(t);
      DoSchedule();
    }

    /** rt_thread_control with RT_THREAD_CTRL_CHANGE_PRIORITY */
    method ChangeThreadPriority(t: Tid, p: nat)
      requires Valid() && t in threads && p < Bits.Limit(wide)
      modifies this`threads, this`lists, this`ready, this`attributes
      ensures Valid() && ReadyList(p) in old(lists) && Model() == ChangePriority(old(Model()), t, p)
    {
      hide Bits.Sound, Bits.Marked, Bits.Attributes, Unlink, Append, Distinct, Inv, On, Waiting;
      Spread(Model());
      ChangePriorityKeepsInv(Model(), t, p);
      if threads[t].stat == Ready {
        OwnListOnly(Model(), t);
        RemoveThread(t);
        threads := threads[t := threads[t].(prio := p)];
        attributes := attributes[t := Bits.Attributes(wide, p)];
        InsertThread(t);
      } else {
        threads := threads[t := threads[t].(prio := p)];
        attributes := attributes[t := Bits.Attributes(wide, p)];
      }
    }

    /** rt_thread_startup while rt_thread_self() is RT_NULL, or up to its rt_schedule. */
    method EnrollThread(t: Tid)
      requires Valid() && t in threads && threads[t].stat == Init
      modifies this`threads, this`lists, this`ready, this`attributes
      ensures Valid() && Enabled(old(Model()), Start(t)) && Model() == Do(old(Model()), Start(t))
    {
      hide Bits.Sound, Bits.Marked, Bits.Attributes, Unlink, Append, Distinct, On, Waiting, Resume, Inv;
      Spread(Model());
      StartupKeepsInv(Model(), t);
      var p := threads[t].initPrio;
      threads := threads[t := threads[t].(prio := p, stat := Suspended, flagged := false)];
      attributes := attributes[t := Bits.Attributes(wide, p)];
      FreshSuspended(old(Model()), t);
      var _ := ResumeThread(t);
    }

    /** rt_thread_startup */
    method StartupThread(t: Tid)
      requires Valid() && t in threads && threads[t].stat == Init
      modifies this`threads, this`lists, this`ready, this`current, this`attributes
      ensures Valid() && Enabled(old(Model()), Start(t)) && Model() == Next(old(Model()), Start(t))
    {
      hide Bits.Sound, Bits.Marked, Bits.Attributes, Inv, Schedule, Do;
      EnrollThread(t);
      DoSchedule();
    }

    /** A thread that is on no list is closed and, if it is kept, put on the defunct list. */
    method BuryThread(t: Tid, keep: bool)
      requires BitsAgree() && MasksAgree() && t in threads && (t == current ==> MaskAgrees(t)) && Defunct in lists
      modifies this`threads, this`lists
      ensures BitsAgree() && MasksAgree() && Model() == Bury(old(Model()), t, keep)
    {
      hide Bits.Sound, Bits.Marked, Bits.Attributes;
      threads := threads[t := threads[t].(stat := Closed, flagged := false)];
      if keep {
        lists := lists[Defunct := [t] + lists[Defunct]];
      }
    }

    /** rt_thread_detach and rt_thread_delete */
    method CloseThread(t: Tid, keep: bool)
      requires Valid() && t in threads
      modifies this`threads, this`lists, this`ready
      ensures Valid() && Defunct in old(lists) && Model() == Close(old(Model()), t, keep)
    {
      hide Bits.Sound, Bits.Marked, Bits.Attributes, Unlink, Distinct, Inv, On, Bury, Waiting;
      Spread(Model());
      CloseKeepsInv(Model(), t, keep);
      if threads[t].stat == Closed {
        return;
      }
      if threads[t].stat != Init {
        OwnListOnly(Model(), t);
        RemoveThread(t);
      }
      BuryThread(t, keep);
    }

    /** The part of rt_thread_exit in front of its rt_schedule. */
    method Retire(keep: bool)
      requires Valid()
      modifies this`threads, this`lists, this`ready
      ensures Valid() && Model() == Do(old(Model()), Exit(keep))
    {
      hide Bits.Sound, Bits.Marked, Bits.Attributes, Unlink, Distinct, Inv, On, Bury, Waiting;
      Spread(Model());
      ExitKeepsInv(Model(), keep);
      OwnListOnly(Model(), current);
      RemoveThread(current);
      BuryThread(current, keep);
    }

    /** rt_thread_exit */
    method ExitThread(keep: bool)
      requires Valid()
      modifies this`threads, this`lists, this`ready, this`current
      ensures Valid() && Model() == Next(old(Model()), Exit(keep))
    {
      hide Bits.Sound, Bits.Marked, Bits.Attributes, Inv, Schedule, Do;
      Retire(keep);
      DoSchedule();
    }

    /** The place of thread t among the waiters l: the tail, or in front of the first of strictly lower priority. */
    method QueuePosition(t: Tid, l: seq<Tid>, byPriority: bool) returns (n: nat)
      requires t in threads && forall j :: 0 <= j < |l| ==> l[j] in threads
      ensures n <= |l| && (!byPriority ==> n == |l|)
      ensures byPriority ==>
        && (forall j :: 0 <= j < n ==> !(threads[t].prio < threads[l[j]].prio))
        && (n < |l| ==> threads[t].prio < threads[l[n]].prio)
    {
      n := |l|;
      if byPriority {
        n := 0;
        while n < |l| && !(threads[t].prio < threads[l[n]].prio)
          invariant n <= |l|
          invariant forall j :: 0 <= j < n ==> !(threads[t].prio < threads[l[j]].prio)
        {
          n := n + 1;
        }
      }
    }

    /** A suspended thread that is on no list joins a wait list. */
    method HangOn(t: Tid, obj: nat, byPriority: bool) returns (i: nat)
      requires InvBut(Model(), t) && threads[t].stat == Suspended && BitsAgree() && MasksAgree() && WaitList(obj) in lists
      modifies this`lists
      ensures Valid() && i <= |old(lists)[WaitList(obj)]| && Model() == Enqueue(old(Model()), t, obj, i)
      ensures forall x :: x in old(lists)[WaitList(obj)] ==> x in threads
      ensures var l := old(lists)[WaitList(obj)];
        && (!byPriority ==> i == |l|)
        && (byPriority ==>
          && (forall j :: 0 <= j < i ==> !(threads[t].prio < threads[l[j]].prio))
          && (i < |l| ==> threads[t].prio < threads[l[i]].prio))
    {
      hide Bits.Sound, Bits.Marked, Bits.Attributes, Distinct, Inv, InsertAt, Waiting;
      WaitersKnown(Model(), obj);
      i := QueuePosition(t, lists[WaitList(obj)], byPriority);
      EnqueueKeepsInv(Model(), t, obj, i);
      EnqueueWaits(Model(), t, obj, i);
      lists := lists[WaitList(obj) := InsertAt(lists[WaitList(obj)], i, t)];
    }

    /** rt_ipc_list_suspend; the position is where the thread ends up in the queue. */
    method IpcListSuspend(t: Tid, obj: nat, byPriority: bool) returns (ghost i: nat)
      requires Valid() && t in threads && (threads[t].stat == Ready || (threads[t].stat == Running && t == current))
      requires WaitList(obj) in lists
      modifies this`threads, this`lists, this`ready
      ensures Valid() && Enabled(old(Model()), Block(t, obj, i)) && Model() == Do(old(Model()), Block(t, obj, i))
      ensures var l := old(lists[WaitList(obj)]);
        && (!byPriority ==> i == |l|)
        && (byPriority ==>
          && (forall j :: 0 <= j < i ==> l[j] in threads && !(threads[t].prio < threads[l[j]].prio))
          && (i < |l| ==> l[i] in threads && threads[t].prio < threads[l[i]].prio))
    {
      hide Bits.Sound, Bits.Marked, Bits.Attributes, Distinct, Inv, InvBut, Unlink, On, Enqueue;
      SuspendKeepsInv(Model(), t);
      WaitListStays(Model(), t, obj);
      SuspendedLists(Model(), t);
      var _ := SuspendThread(t);
      i := HangOn(t, obj, byPriority);
    }

    // ---- clock.c and the critical sections

    /** The countdown of rt_tick_increase; flag: the slice is used up, and rt_thread_yield follows. */
    method CountTick() returns (flag: bool)
      requires Valid() && threads[current].left > 0
      modifies this`threads
      ensures Valid() && Model() == CountDown(old(Model())) && (flag <==> old(threads)[current].left == 1)
    {
      hide Bits.Sound, Bits.Marked, Bits.Attributes, Distinct, Inv, On, Waiting, AllDistinct;
      Spread(Model());
      CountDownKeepsInv(Model());
      var thread := threads[current];
      thread := thread.(left := thread.left - 1);
      flag := thread.left == 0;
      if flag {
        thread := thread.(left := thread.slice);
        thread := thread.(flagged := true);
      }
      threads := threads[current := thread];
    }

    /** rt_tick_increase, the timers aside. */
    method TickIncrease()
      requires Valid() && threads[current].left > 0
      modifies this`threads, this`lists, this`ready, this`current
      ensures Valid() && Enabled(old(Model()), ClockTick) && Model() == Next(old(Model()), ClockTick)
    {
      hide Bits.Sound, Bits.Marked, Bits.Attributes, Inv, CountDown, Schedule;
      Spread(Model());
      DoKeepsInv(Model(), ClockTick);
      var flag := CountTick();
      if flag {
        DoSchedule();
      }
    }

    /** rt_enter_critical */
    method EnterCritical()
      requires Valid()
      modifies this`nest
      ensures Valid() && Model() == Next(old(Model()), Lock)
    {
      hide Inv;
      DoKeepsInv(Model(), Lock);
      nest := nest + 1;
    }

    /** rt_exit_critical */
    method ExitCritical()
      requires Valid()
      modifies this`threads, this`lists, this`ready, this`current, this`nest
      ensures Valid() && Model() == Next(old(Model()), Release)
    {
      hide Bits.Sound, Bits.Marked, Bits.Attributes, Inv, Schedule;
      DoKeepsInv(Model(), Release);
      var n: int := nest - 1;
      if n <= 0 {
        nest := 0;
        DoSchedule();
      } else {
        nest := n;
      }
    }
  }

  lemma StartsUnmarked(m: Bits.Map)
    requires m == Bits.Narrow(0) || (m.Wide? && m.group == 0 && |m.table| == 32 && forall i :: 0 <= i < 32 ==> m.table[i] == 0)
    ensures Bits.Sound(m) && forall p: nat :: !Bits.Marked(m, p)
  {
    hide Bits.Summary, Bits.Holds;
    if m.Wide? {
      Bits.EmptyIsSound(m.table);
    }
    Bits.Lookup(m);
  }

  lemma OwnListOnly(s: State, t: Tid)
    requires Inv(s) && t in s.threads
    ensures forall p :: On(s.lists, ReadyList(p), t) ==> p == s.threads[t].prio
    ensures forall k :: k in Unlink(s.lists, t) <==> k in s.lists
  {
  }

  lemma UnlinkSuspended(s: State, t: Tid)
    requires Inv(s) && t in s.threads && s.threads[t].stat == Suspended
    ensures forall q: nat :: Waiting(Unlink(s.lists, t), q) <==> Waiting(s.lists, q)
    ensures forall k :: k in Unlink(s.lists, t) <==> k in s.lists
  {
    forall q: nat | ReadyList(q) in s.lists
      ensures Unlink(s.lists, t)[ReadyList(q)] == s.lists[ReadyList(q)]
    {
      assert !On(s.lists, ReadyList(q), t);
    }
  }

  lemma FreshSuspended(s: State, t: Tid)
    requires Inv(s) && t in s.threads && s.threads[t].stat == Init
    ensures var th := s.threads[t].(prio := s.threads[t].initPrio, stat := Suspended, flagged := false);
      Inv(s.(threads := s.threads[t := th]))
  {
    hide Distinct;
    OffInit(s, t);
    InvToBut(s, t);
    var th := s.threads[t].(prio := s.threads[t].initPrio, stat := Suspended, flagged := false);
    RewriteBut(s, t, th);
    RestBut(s.(threads := s.threads[t := th]), t);
  }

  /** A ready or running thread is on no wait list. */
  lemma WaitListStays(s: State, t: Tid, obj: nat)
    requires Inv(s) && t in s.threads && (s.threads[t].stat == Ready || s.threads[t].stat == Running)
    requires WaitList(obj) in s.lists
    ensures WaitList(obj) in Unlink(s.lists, t) && Unlink(s.lists, t)[WaitList(obj)] == s.lists[WaitList(obj)]
  {
    assert !On(s.lists, WaitList(obj), t);
  }

  lemma SuspendedLists(s: State, t: Tid)
    requires t in s.threads && Suspend(s, t).1
    ensures Suspend(s, t).0.lists == Unlink(s.lists, t) && Suspend(s, t).0.threads == SetStat(s.threads, t, Suspended)
  {
  }

  lemma WaitersKnown(s: State, obj: nat)
    requires Base(s) && WaitList(obj) in s.lists
    ensures forall j :: 0 <= j < |s.lists[WaitList(obj)]| ==> s.lists[WaitList(obj)][j] in s.threads
    ensures forall x :: x in s.lists[WaitList(obj)] ==> x in s.threads
  {
    assert forall x :: x in s.lists[WaitList(obj)] ==> On(s.lists, WaitList(obj), x);
    assert forall j :: 0 <= j < |s.lists[WaitList(obj)]| ==> On(s.lists, WaitList(obj), s.lists[WaitList(obj)][j]);
  }

  lemma EnqueueWaits(s: State, t: Tid, obj: nat, n: nat)
    requires WaitList(obj) in s.lists && n <= |s.lists[WaitList(obj)]|
    ensures forall q: nat :: Waiting(Enqueue(s, t, obj, n).lists, q) <==> Waiting(s.lists, q)
  {
  }

  lemma TopIs(lists: Lists, p: nat)
    requires IsTop(lists, p)
    ensures SomeReady(lists) && Top(lists) == p && Waiting(lists, p)
  {
  }

  lemma NextReady(s: State, p: nat)
    requires Inv(s) && Waiting(s.lists, p)
    ensures var next := s.lists[ReadyList(p)][0];
      next in s.threads && s.threads[next].stat == Ready && s.threads[next].prio == p && next != s.current
  {
    NextIsReady(s, p);
  }

  lemma StaysOff(s: State)
    requires Inv(s) && s.threads[s.current].stat == Running
    ensures Off(s.lists, s.current) && Unlink(s.lists, s.current) == s.lists
    ensures forall p :: !On(s.lists, ReadyList(p), s.current)
  {
    OffInit(s, s.current);
    UnlinkOff(s.lists, s.current);
  }

  /** The next thread is on its own ready list only, also after the loser has been queued. */
  lemma InsertedSwitch(s: State, p: nat)
    requires Inv(s) && Waiting(s.lists, p)
    ensures var next := s.lists[ReadyList(p)][0]; var from := s.current;
      && (forall q :: On(s.lists, ReadyList(q), next) ==> q == p)
      && (ReadyList(s.threads[from].prio) in s.lists
        && ReadyList(p) in Append(s.lists, ReadyList(s.threads[from].prio), from)
        && forall q :: On(Append(s.lists, ReadyList(s.threads[from].prio), from), ReadyList(q), next) ==> q == p)
  {
    var next := s.lists[ReadyList(p)][0];
    NextIsReady(s, p);
    var k := ReadyList(s.threads[s.current].prio);
    forall q | On(Append(s.lists, k, s.current), ReadyList(q), next)
      ensures q == p
    {
      assert On(s.lists, ReadyList(q), next);
    }
  }

  lemma UnlinkWaits(lists: Lists, t: Tid, p: nat)
    requires forall q :: On(lists, ReadyList(q), t) ==> q == p
    ensures forall q: nat :: q != p ==> (Waiting(Unlink(lists, t), q) <==> Waiting(lists, q))
    ensures Waiting(Unlink(lists, t), p) ==> Waiting(lists, p)
  {
    forall q: nat | q != p && ReadyList(q) in lists
      ensures Unlink(lists, t)[ReadyList(q)] == lists[ReadyList(q)]
    {
      assert !On(lists, ReadyList(q), t);
    }
  }
}
