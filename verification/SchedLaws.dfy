// What the scheduler and the thread operations keep, over single steps and whole runs.
module SchedLaws {
  import opened Seqs
  import opened Sched

  // ---- lists

  lemma UnlinkOn(lists: Lists, t: Tid)
    requires AllDistinct(lists)
    ensures AllDistinct(Unlink(lists, t)) && Off(Unlink(lists, t), t)
    ensures forall k, u :: On(Unlink(lists, t), k, u) <==> On(lists, k, u) && u != t
    ensures forall k :: k in Unlink(lists, t) <==> k in lists
  {
    forall k | k in lists
      ensures Distinct(Unlink(lists, t)[k])
      ensures forall u :: u in Unlink(lists, t)[k] <==> u in lists[k] && u != t
    {
      WithoutMembers(lists[k], t);
    }
  }

  lemma UnlinkOff(lists: Lists, t: Tid)
    requires Off(lists, t)
    ensures Unlink(lists, t) == lists
  {
    forall k | k in lists
      ensures Unlink(lists, t)[k] == lists[k]
    {
      assert !On(lists, k, t);
    }
  }

  lemma PutOn(lists: Lists, k: Key, i: nat, t: Tid)
    requires AllDistinct(lists) && k in lists && i <= |lists[k]| && Off(lists, t)
    ensures var lists' := lists[k := InsertAt(lists[k], i, t)];
      && AllDistinct(lists')
      && (forall j, u :: On(lists', j, u) <==> On(lists, j, u) || (j == k && u == t))
      && (forall j :: j in lists' <==> j in lists)
  {
    assert !On(lists, k, t);
    InsertMembers(lists[k], i, t);
  }

  lemma AppendOn(lists: Lists, k: Key, t: Tid)
    requires AllDistinct(lists) && k in lists && Off(lists, t)
    ensures var lists' := Append(lists, k, t);
      && AllDistinct(lists')
      && (forall j, u :: On(lists', j, u) <==> On(lists, j, u) || (j == k && u == t))
      && (forall j :: j in lists' <==> j in lists)
  {
    PutOn(lists, k, |lists[k]|, t);
    assert InsertAt(lists[k], |lists[k]|, t) == lists[k] + [t];
  }

  lemma PrependOn(lists: Lists, k: Key, t: Tid)
    requires AllDistinct(lists) && k in lists && Off(lists, t)
    ensures var lists' := lists[k := [t] + lists[k]];
      && AllDistinct(lists')
      && (forall j, u :: On(lists', j, u) <==> On(lists, j, u) || (j == k && u == t))
      && (forall j :: j in lists' <==> j in lists)
  {
    PutOn(lists, k, 0, t);
    assert InsertAt(lists[k], 0, t) == [t] + lists[k];
  }

  // ---- taking a thread off its list and putting it back

  lemma OffInit(s: State, t: Tid)
    requires Inv(s) && t in s.threads && (s.threads[t].stat == Init || s.threads[t].stat == Running)
    ensures Off(s.lists, t)
  {
  }

  lemma InvToBut(s: State, t: Tid)
    requires Inv(s) && t in s.threads && Off(s.lists, t)
    ensures InvBut(s, t)
  {
  }

  lemma RemoveDetaches(s: State, t: Tid)
    requires Base(s) && t in s.threads && forall u :: u in s.threads && u != t ==> Placed(s, u)
    ensures InvBut(Remove(s, t), t)
  {
    hide Unlink, On, Distinct;
    UnlinkOn(s.lists, t);
  }

  /** The thread itself may be rewritten while it is off the lists. */
  lemma RewriteBut(s: State, t: Tid, th: Thread)
    requires InvBut(s, t) && th.prio < PRIORITIES && th.initPrio < PRIORITIES
    ensures InvBut(s.(threads := s.threads[t := th]), t)
  {
    hide On, Distinct;
    var s' := s.(threads := s.threads[t := th]);
    assert forall k, u :: On(s.lists, k, u) ==> u != t;
    forall u | u in s'.threads && u != t
      ensures Placed(s', u)
    {
      assert Placed(s, u);
    }
  }

  /** A thread that is neither ready, running nor fresh is well placed off the lists. */
  lemma RestBut(s: State, t: Tid)
    requires InvBut(s, t) && (s.threads[t].stat == Suspended || s.threads[t].stat == Closed)
    ensures Inv(s)
  {
  }

  lemma InsertKeepsInv(s: State, t: Tid)
    requires InvBut(s, t)
    ensures Inv(Insert(s, t))
  {
    hide On, Distinct, Append;
    var p := s.threads[t].prio;
    var s' := Insert(s, t);
    if t == s.current {
      RewriteBut(s, t, s.threads[t].(stat := Running));
    } else {
      RewriteBut(s, t, s.threads[t].(stat := Ready));
      AppendOn(s.lists, ReadyList(p), t);
      forall u | u in s'.threads
        ensures Placed(s', u)
      {
        if u != t { assert Placed(s, u); }
      }
    }
  }

  // ---- one operation after the other

  lemma SuspendKeepsInv(s: State, t: Tid)
    requires Inv(s) && t in s.threads
    ensures Inv(Suspend(s, t).0)
    ensures Suspend(s, t).1 ==> InvBut(Suspend(s, t).0, t) && Suspend(s, t).0.threads[t].stat == Suspended
  {
    hide Inv, InvBut, Unlink;
    if Suspend(s, t).1 {
      Spread(s);
      RemoveDetaches(s, t);
      RewriteBut(Remove(s, t), t, s.threads[t].(stat := Suspended));
      RestBut(Suspend(s, t).0, t);
    }
  }

  lemma Spread(s: State)
    requires Inv(s)
    ensures Base(s) && forall t :: t in s.threads ==> Placed(s, t)
  {
  }

  lemma ResumeKeepsInv(s: State, t: Tid)
    requires Inv(s) && t in s.threads && ReadyList(s.threads[t].prio) in s.lists
    ensures Inv(Resume(s, t).0)
  {
    hide Inv, InvBut, Insert, Remove;
    if s.threads[t].stat == Suspended {
      Spread(s);
      RemoveDetaches(s, t);
      InsertKeepsInv(Remove(s, t), t);
    }
  }

  lemma ExpireKeepsInv(s: State, t: Tid)
    requires Inv(s) && t in s.threads && s.threads[t].stat == Suspended
    ensures ReadyList(s.threads[t].prio) in s.lists && Inv(Expire(s, t))
  {
    hide Inv, InvBut, Insert, Unlink;
    Spread(s);
    RemoveDetaches(s, t);
    RewriteBut(Remove(s, t), t, s.threads[t].(timedOut := true));
    InsertKeepsInv(Remove(s, t).(threads := s.threads[t := s.threads[t].(timedOut := true)]), t);
  }

  lemma ChangePriorityKeepsInv(s: State, t: Tid, p: nat)
    requires Inv(s) && t in s.threads && p < PRIORITIES
    ensures ReadyList(p) in s.lists && Inv(ChangePriority(s, t, p))
  {
    hide Inv, InvBut, Insert, Unlink;
    Spread(s);
    if s.threads[t].stat == Ready {
      RemoveDetaches(s, t);
      RewriteBut(Remove(s, t), t, s.threads[t].(prio := p));
      InsertKeepsInv(SetPrio(Remove(s, t), t, p), t);
    } else {
      RepriceKeepsInv(s, t, p);
    }
  }

  lemma RepriceKeepsInv(s: State, t: Tid, p: nat)
    requires Inv(s) && t in s.threads && s.threads[t].stat != Ready && p < PRIORITIES
    ensures Inv(SetPrio(s, t, p))
  {
    hide On, Distinct;
    var s' := SetPrio(s, t, p);
    forall u | u in s'.threads
      ensures Placed(s', u)
    {
      assert Placed(s, u);
    }
  }

  lemma StartupKeepsInv(s: State, t: Tid)
    requires Inv(s) && t in s.threads && s.threads[t].stat == Init
    ensures ReadyList(s.threads[t].initPrio) in s.lists && Inv(Startup(s, t))
  {
    hide Inv, InvBut, Resume;
    Spread(s);
    OffInit(s, t);
    InvToBut(s, t);
    var th := s.threads[t].(prio := s.threads[t].initPrio, stat := Suspended, flagged := false);
    RewriteBut(s, t, th);
    RestBut(s.(threads := s.threads[t := th]), t);
    ResumeKeepsInv(s.(threads := s.threads[t := th]), t);
  }

  lemma CloseKeepsInv(s: State, t: Tid, keep: bool)
    requires Inv(s) && t in s.threads
    ensures Defunct in s.lists && Inv(Close(s, t, keep))
  {
    hide Inv, InvBut, Unlink, Bury;
    Spread(s);
    if s.threads[t].stat == Init {
      OffInit(s, t);
      InvToBut(s, t);
      BuryKeepsInv(s, t, keep);
    } else if s.threads[t].stat != Closed {
      RemoveDetaches(s, t);
      BuryKeepsInv(Remove(s, t), t, keep);
    }
  }

  lemma ExitKeepsInv(s: State, keep: bool)
    requires Inv(s)
    ensures s.current in s.threads && Defunct in s.lists && Inv(Leave(s, keep))
  {
    hide Inv, InvBut, Unlink, Bury;
    Spread(s);
    RemoveDetaches(s, s.current);
    BuryKeepsInv(Remove(s, s.current), s.current, keep);
  }

  lemma BuryKeepsInv(s: State, t: Tid, keep: bool)
    requires InvBut(s, t)
    ensures Defunct in s.lists && Inv(Bury(s, t, keep))
  {
    hide Inv, On, Distinct, Off, Placed;
    var th := s.threads[t].(stat := Closed, flagged := false);
    RewriteBut(s, t, th);
    var s2 := s.(threads := s.threads[t := th]);
    RestBut(s2, t);
    if keep {
      PrependKeepsInv(s2, t);
    }
  }

  lemma PrependKeepsInv(s: State, t: Tid)
    requires InvBut(s, t) && s.threads[t].stat == Closed
    ensures Inv(s.(lists := s.lists[Defunct := [t] + s.lists[Defunct]]))
  {
    hide On, Distinct;
    PrependOn(s.lists, Defunct, t);
    var s' := s.(lists := s.lists[Defunct := [t] + s.lists[Defunct]]);
    forall u | u in s'.threads
      ensures Placed(s', u)
    {
      if u != t { assert Placed(s, u); }
    }
  }

  lemma EnqueueKeepsInv(s: State, t: Tid, obj: nat, i: nat)
    requires InvBut(s, t) && s.threads[t].stat == Suspended
    requires WaitList(obj) in s.lists && i <= |s.lists[WaitList(obj)]|
    ensures Inv(Enqueue(s, t, obj, i))
  {
    hide On, Distinct, InsertAt;
    PutOn(s.lists, WaitList(obj), i, t);
    var s' := Enqueue(s, t, obj, i);
    forall u | u in s'.threads
      ensures Placed(s', u)
    {
      if u != t { assert Placed(s, u); }
    }
  }

  /** Fields that the lists do not depend on. */
  lemma TouchKeepsInv(s: State, t: Tid, th: Thread)
    requires Inv(s) && t in s.threads
    requires th.stat == s.threads[t].stat && th.prio == s.threads[t].prio && th.initPrio == s.threads[t].initPrio
    ensures Inv(s.(threads := s.threads[t := th]))
  {
    hide On, Distinct;
    var s' := s.(threads := s.threads[t := th]);
    forall u | u in s'.threads
      ensures Placed(s', u)
    {
      assert Placed(s, u);
    }
  }

  lemma CountDownKeepsInv(s: State)
    requires Inv(s) && s.threads[s.current].left > 0
    ensures Inv(CountDown(s))
  {
    hide Inv;
    Spread(s);
    var th := s.threads[s.current];
    TouchKeepsInv(s, s.current,
      if th.left == 1 then th.(left := th.slice, flagged := true) else th.(left := th.left - 1));
  }

  // ---- rt_schedule

  lemma SwitchKeepsInv(s: State, p: nat)
    requires Inv(s) && Waiting(s.lists, p)
    ensures Inv(Switch(s, p)) && Switch(s, p).threads[Switch(s, p).current].stat == Running
  {
    hide Inv, InvBut, Unlink, Insert, On, Distinct;
    Spread(s);
    var from := s.current;
    var next := s.lists[ReadyList(p)][0];
    NextIsReady(s, p);
    var s1 := s.(current := next);
    var s2 := if s.threads[from].stat != Running then s1 else
        Insert(s1.(threads := s.threads[from := s.threads[from].(flagged := false)]), from);
    HandOver(s, next);
    assert Base(s2) && next in s2.threads && s2.current == next && forall u :: u in s2.threads && u != next ==> Placed(s2, u);
    RemoveDetaches(s2, next);
    var s3 := Remove(s2, next);
    RewriteBut(s3, next, s3.threads[next].(stat := Running));
    RunningBut(s3.(threads := SetStat(s3.threads, next, Running)), next);
  }

  lemma NextIsReady(s: State, p: nat)
    requires Inv(s) && Waiting(s.lists, p)
    ensures var next := s.lists[ReadyList(p)][0];
      On(s.lists, ReadyList(p), next) && next in s.threads && s.threads[next].stat == Ready && next != s.current
  {
    var next := s.lists[ReadyList(p)][0];
    assert On(s.lists, ReadyList(p), next);
    assert Placed(s, next);
  }

  lemma RunningBut(s: State, t: Tid)
    requires InvBut(s, t) && s.current == t && s.threads[t].stat == Running
    ensures Inv(s)
  {
  }

  /** After the processor has changed hands, everyone but the new thread is placed. */
  lemma HandOver(s: State, next: Tid)
    requires Inv(s) && next in s.threads && s.threads[next].stat == Ready
    ensures var from := s.current;
      var s1 := s.(current := next);
      var s2 := if s.threads[from].stat != Running then s1 else
        Insert(s1.(threads := s.threads[from := s.threads[from].(flagged := false)]), from);
      Base(s2) && next in s2.threads && s2.current == next && forall u :: u in s2.threads && u != next ==> Placed(s2, u)
  {
    hide On, Distinct, Append;
    var from := s.current;
    assert Placed(s, from) && Placed(s, next);
    var s1 := s.(current := next);
    if s.threads[from].stat == Running {
      OffInit(s, from);
      var th := s.threads[from].(flagged := false);
      var s2 := Insert(s1.(threads := s.threads[from := th]), from);
      AppendOn(s.lists, ReadyList(th.prio), from);
      forall u | u in s2.threads && u != next
        ensures Placed(s2, u)
      {
        assert Placed(s, u);
      }
    } else {
      forall u | u in s1.threads && u != next
        ensures Placed(s1, u)
      {
        assert Placed(s, u);
      }
    }
  }

  lemma ScheduleKeepsInv(s: State)
    requires Inv(s)
    ensures Inv(Schedule(s))
  {
    hide Inv, Switch;
    Spread(s);
    if !Stays(s) {
      SwitchKeepsInv(s, Top(s.lists));
    }
  }

  /** After an unlocked rt_schedule a most urgent thread runs, provided there is anything to run. */
  lemma ScheduleSettles(s: State)
    requires Inv(s) && s.nest == 0 && (SomeReady(s.lists) || s.threads[s.current].stat == Running)
    ensures s.current in s.threads && Schedule(s).current in Schedule(s).threads && Settled(Schedule(s))
  {
    hide Switch, Distinct;
    if Stays(s) {
      forall p, t | On(s.lists, ReadyList(p), t)
        ensures s.threads[s.current].prio <= p
      {
        assert Waiting(s.lists, p);
      }
    } else {
      SwitchKeepsInv(s, Top(s.lists));
      SwitchSettles(s, Top(s.lists));
    }
  }

  lemma SwitchSettles(s: State, p: nat)
    requires Inv(s) && IsTop(s.lists, p) && (s.threads[s.current].stat == Running ==> p <= s.threads[s.current].prio)
    ensures var s' := Switch(s, p);
      && s'.current == s.lists[ReadyList(p)][0] && s'.current in s'.threads && s'.threads[s'.current].prio == p
      && forall q, t :: On(s'.lists, ReadyList(q), t) ==> p <= q
  {
    hide Unlink, On, Distinct, Append;
    var from := s.current;
    var next := s.lists[ReadyList(p)][0];
    NextIsReady(s, p);
    assert s.threads[next].prio == p;
    var s' := Switch(s, p);
    var lists2 := if s.threads[from].stat != Running then s.lists else Append(s.lists, ReadyList(s.threads[from].prio), from);
    if s.threads[from].stat == Running {
      OffInit(s, from);
      AppendOn(s.lists, ReadyList(s.threads[from].prio), from);
    }
    UnlinkOn(lists2, next);
    assert s'.lists == Unlink(lists2, next);
    forall q, t | On(s'.lists, ReadyList(q), t)
      ensures p <= q
    {
      assert On(lists2, ReadyList(q), t);
      if On(s.lists, ReadyList(q), t) { OnWaits(s.lists, q, t); }
    }
  }

  lemma OnWaits(lists: Lists, p: nat, t: Tid)
    requires On(lists, ReadyList(p), t)
    ensures Waiting(lists, p)
  {
  }

  // ---- runs

  datatype Action =
    | Start(t: Tid)                              // rt_thread_startup
    | Halt(t: Tid)                               // rt_thread_suspend
    | Block(t: Tid, obj: nat, i: nat)            // rt_ipc_list_suspend, then rt_schedule
    | Wake(t: Tid)                               // rt_thread_resume
    | TimeOut(t: Tid)                            // rt_thread_timeout
    | Reprice(t: Tid, p: nat)                    // rt_thread_control
    | Exit(keep: bool)                           // rt_thread_exit
    | Delete(t: Tid, keep: bool)                 // rt_thread_delete, rt_thread_detach
    | ClockTick                                  // rt_tick_increase
    | Yield                                      // rt_thread_yield
    | Lock | Release                             // rt_enter_critical, rt_exit_critical

  /** What the code asserts of its callers. */
  ghost predicate Enabled(s: State, a: Action) {
    match a
    case Start(t) => t in s.threads && s.threads[t].stat == Init
    case Halt(t) => t in s.threads
    case Block(t, obj, i) => t in s.threads && Suspend(s, t).1 && WaitList(obj) in Suspend(s, t).0.lists && i <= |Suspend(s, t).0.lists[WaitList(obj)]|
    case Wake(t) => t in s.threads
    case TimeOut(t) => t in s.threads && s.threads[t].stat == Suspended
    case Reprice(t, p) => t in s.threads && p < PRIORITIES
    case Exit(_) => true
    case Delete(t, _) => t in s.threads
    case ClockTick => s.current in s.threads && s.threads[s.current].left > 0
    case _ => true
  }

  ghost function Do(s: State, a: Action): State
    requires Inv(s) && Enabled(s, a)
  {
    match a
    case Start(t) => Startup(s, t)
    case Halt(t) => Suspend(s, t).0
    case Block(t, obj, i) => Enqueue(Suspend(s, t).0, t, obj, i)
    case Wake(t) => Resume(s, t).0
    case TimeOut(t) => Expire(s, t)
    case Reprice(t, p) => ChangePriority(s, t, p)
    case Exit(keep) => Leave(s, keep)
    case Delete(t, keep) => Close(s, t, keep)
    case ClockTick => CountDown(s)
    case Yield => s
    case Lock => s.(nest := s.nest + 1)
    case Release => Unlock(s)
  }

  /** The calls that end in rt_schedule. */
  predicate Schedules(s: State, a: Action)
    requires a.ClockTick? ==> s.current in s.threads
  {
    match a
    case Halt(_) => false
    case Wake(_) => false
    case Reprice(_, _) => false
    case Delete(_, _) => false
    case ClockTick => s.threads[s.current].left == 1
    case Lock => false
    case Release => s.nest <= 1
    case _ => true
  }

  lemma DoKeepsInv(s: State, a: Action)
    requires Inv(s) && Enabled(s, a)
    ensures Inv(Do(s, a))
  {
    hide Inv, InvBut, Startup, Suspend, Enqueue, Resume, Expire, ChangePriority, Close, Leave, CountDown;
    Spread(s);
    match a
    case Start(t) => StartupKeepsInv(s, t);
    case Halt(t) => SuspendKeepsInv(s, t);
    case Block(t, obj, i) =>
      SuspendKeepsInv(s, t);
      EnqueueKeepsInv(Suspend(s, t).0, t, obj, i);
    case Wake(t) => ResumeKeepsInv(s, t);
    case TimeOut(t) => ExpireKeepsInv(s, t);
    case Reprice(t, p) => ChangePriorityKeepsInv(s, t, p);
    case Exit(keep) => ExitKeepsInv(s, keep);
    case Delete(t, keep) => CloseKeepsInv(s, t, keep);
    case ClockTick => CountDownKeepsInv(s);
    case _ => RelockKeepsInv(s, Do(s, a).nest);
  }

  lemma RelockKeepsInv(s: State, n: nat)
    requires Inv(s)
    ensures Inv(s.(nest := n))
  {
    hide On, Distinct;
    var s' := s.(nest := n);
    forall u | u in s'.threads
      ensures Placed(s', u)
    {
      assert Placed(s, u);
    }
  }

  ghost function Next(s: State, a: Action): State
    requires Inv(s) && Enabled(s, a)
  {
    DoKeepsInv(s, a);
    if Schedules(s, a) then Schedule(Do(s, a)) else Do(s, a)
  }

  /** The idle thread never waits. */
  ghost predicate Alive(s: State, idle: Tid) {
    idle in s.threads && (s.threads[idle].stat == Ready || s.threads[idle].stat == Running)
  }

  predicate Spares(s: State, a: Action, idle: Tid) {
    match a
    case Halt(t) => t != idle
    case Block(t, _, _) => t != idle
    case Exit(_) => s.current != idle
    case Delete(t, _) => t != idle
    case _ => true
  }

  lemma DoKeepsAlive(s: State, a: Action, idle: Tid)
    requires Inv(s) && Enabled(s, a) && Alive(s, idle) && Spares(s, a, idle)
    ensures Alive(Do(s, a), idle)
  {
    hide Inv, Unlink, Append;
  }

  lemma ScheduleKeepsAlive(s: State, idle: Tid)
    requires Inv(s) && Alive(s, idle)
    ensures Alive(Schedule(s), idle)
  {
    hide Unlink, Append, Distinct;
    assert Placed(s, idle);
    if !Stays(s) {
      NextIsReady(s, Top(s.lists));
    }
  }

  lemma AliveHasWork(s: State, idle: Tid)
    requires Inv(s) && Alive(s, idle)
    ensures SomeReady(s.lists) || s.threads[s.current].stat == Running
  {
    assert Placed(s, idle);
    if s.threads[idle].stat == Ready {
      OnWaits(s.lists, s.threads[idle].prio, idle);
    }
  }

  /** Every call keeps the lists right, and one that goes through an unlocked rt_schedule leaves a most urgent thread running. */
  lemma StepKeepsAll(s: State, a: Action, idle: Tid)
    requires Inv(s) && Enabled(s, a) && Alive(s, idle) && Spares(s, a, idle)
    ensures var s' := Next(s, a);
      && Inv(s') && Alive(s', idle)
      && (Schedules(s, a) && Do(s, a).nest == 0 ==> Settled(s'))
  {
    hide Inv, Do, Schedule, Settled, Alive;
    DoKeepsInv(s, a);
    DoKeepsAlive(s, a, idle);
    if Schedules(s, a) {
      ScheduleKeepsInv(Do(s, a));
      ScheduleKeepsAlive(Do(s, a), idle);
      AliveHasWork(Do(s, a), idle);
      if Do(s, a).nest == 0 {
        ScheduleSettles(Do(s, a));
      }
    }
    Spread(Next(s, a));
  }

  ghost predicate IsRun(s: State, steps: seq<Action>, idle: Tid)
    requires Inv(s)
    decreases |steps|
  {
    steps != [] ==>
      && Enabled(s, steps[0]) && Spares(s, steps[0], idle)
      && (Kept(s, steps[0]); IsRun(Next(s, steps[0]), steps[1..], idle))
  }

  lemma Kept(s: State, a: Action)
    requires Inv(s) && Enabled(s, a)
    ensures Inv(Next(s, a))
  {
    hide Inv, Do, Schedule;
    DoKeepsInv(s, a);
    if Schedules(s, a) { ScheduleKeepsInv(Do(s, a)); }
  }

  ghost function After(s: State, steps: seq<Action>, idle: Tid): (r: State)
    requires Inv(s) && IsRun(s, steps, idle)
    ensures Inv(r)
    decreases |steps|
  {
    if steps == [] then s else
      Kept(s, steps[0]);
      After(Next(s, steps[0]), steps[1..], idle)
  }

  /** At every call of the run that goes through an unlocked rt_schedule, a most urgent thread gets the processor. */
  ghost predicate Orderly(s: State, steps: seq<Action>, idle: Tid)
    requires Inv(s) && IsRun(s, steps, idle)
    decreases |steps|
  {
    steps != [] ==>
      && (Kept(s, steps[0]); Schedules(s, steps[0]) && Do(s, steps[0]).nest == 0 ==> Settled(Next(s, steps[0])))
      && Orderly(Next(s, steps[0]), steps[1..], idle)
  }

  /** Over any run the lists stay right, the idle thread stays available and the processor is always given to a most urgent thread. */
  lemma {:induction false} EveryRun(s: State, steps: seq<Action>, idle: Tid)
    requires Inv(s) && Alive(s, idle) && IsRun(s, steps, idle)
    ensures Inv(After(s, steps, idle)) && Alive(After(s, steps, idle), idle)
    ensures Orderly(s, steps, idle)
    decreases |steps|
  {
    hide Inv, Alive, Do, Next, Settled;
    if steps != [] {
      StepKeepsAll(s, steps[0], idle);
      Kept(s, steps[0]);
      EveryRun(Next(s, steps[0]), steps[1..], idle);
    }
  }

  /** In plain terms: READY is being exactly once on the ready list of one's own priority, and a settled processor runs exactly the current thread. */
  lemma WhereThreadsAre(s: State, t: Tid)
    requires Inv(s) && t in s.threads
    ensures s.threads[t].stat == Ready <==> exists p: nat :: On(s.lists, ReadyList(p), t)
    ensures s.threads[t].stat == Ready ==>
      && On(s.lists, ReadyList(s.threads[t].prio), t)
      && multiset(s.lists[ReadyList(s.threads[t].prio)])[t] == 1
      && forall k :: On(s.lists, k, t) ==> k == ReadyList(s.threads[t].prio)
    ensures s.threads[t].stat == Suspended ==>
      forall j, k :: On(s.lists, j, t) && On(s.lists, k, t) ==> j == k && j.WaitList?
    ensures s.threads[t].stat == Running ==> t == s.current && Off(s.lists, t)
    ensures Settled(s) ==> (s.threads[t].stat == Running <==> t == s.current)
  {
    assert Placed(s, t);
    if s.threads[t].stat == Ready {
      var l := s.lists[ReadyList(s.threads[t].prio)];
      WithoutMultiset(l, t);
      WithoutMembers(l, t);
    }
  }

  /** rt_thread_yield passes the processor on only when the tick has flagged the running thread and an equal is ready; otherwise it changes nothing. */
  lemma YieldNeedsFlag(s: State)
    requires Inv(s) && s.nest == 0 && Settled(s)
    ensures var th := s.threads[s.current];
      Next(s, Yield).current != s.current <==> th.flagged && Waiting(s.lists, th.prio)
    ensures Next(s, Yield).current == s.current ==> Next(s, Yield) == s
  {
    hide Distinct, Switch, On;
    var p := s.threads[s.current].prio;
    forall q: nat | Waiting(s.lists, q)
      ensures p <= q
    {
      HeadOn(s.lists, q);
    }
    if !Stays(s) {
      NextIsReady(s, Top(s.lists));
      SwitchSettles(s, Top(s.lists));
    }
  }

  /** The state after rt_system_scheduler_init; boot stands for nobody being current yet. */
  lemma StartsInv(born: map<Tid, Thread>, boot: Tid, objects: set<nat>)
    requires boot in born && forall t :: t in born ==>
      born[t].stat == (if t == boot then Closed else Init) && born[t].initPrio < PRIORITIES && born[t].prio < PRIORITIES
    ensures Inv(State(born, EmptyLists(objects), boot, 0))
    ensures forall p: nat :: !Waiting(EmptyLists(objects), p)
  {
    assert forall k, t :: !On(EmptyLists(objects), k, t);
  }

  // ---- a run in which yielding does nothing

  function Fresh(slice: nat): Thread {
    Thread(Init, false, 31, 31, slice, slice, false)
  }

  /** Threads 0 and 1 have the same priority, and the states in which they are: on the ready list when ready. */
  function Two(slice: nat, a: Stat, b: Stat, l: seq<Tid>, current: Tid): State {
    State(map[0 := Fresh(slice).(stat := a), 1 := Fresh(slice).(stat := b), 2 := Fresh(slice).(stat := Closed)],
          EmptyLists({})[ReadyList(31) := l], current, 0)
  }

  /** Taking t off the one list that has threads. */
  lemma UnlinkOne(lists: Lists, t: Tid)
    requires ReadyList(31) in lists && forall k :: k in lists && k != ReadyList(31) ==> lists[k] == []
    ensures Unlink(lists, t) == lists[ReadyList(31) := Without(lists[ReadyList(31)], t)]
  {
  }

  lemma OneTop(lists: Lists)
    requires ReadyList(31) in lists && forall k :: k in lists && k != ReadyList(31) ==> lists[k] == []
    ensures Waiting(lists, 31) <==> lists[ReadyList(31)] != []
    ensures SomeReady(lists) <==> lists[ReadyList(31)] != []
    ensures SomeReady(lists) ==> Top(lists) == 31
  {
    forall p: nat | Waiting(lists, p)
      ensures p == 31
    {
    }
  }

  lemma FirstStart(slice: nat)
    requires Inv(Two(slice, Init, Init, [], 2))
    ensures Do(Two(slice, Init, Init, [], 2), Start(0)) == Two(slice, Ready, Init, [0], 2)
  {
    hide Inv, EmptyLists;
    var s := Two(slice, Init, Init, [], 2);
    UnlinkOne(s.lists, 0);
    assert s.lists[ReadyList(31) := []] == s.lists && s.lists[ReadyList(31)] + [0] == [0];
    assert Do(s, Start(0)).threads == Two(slice, Ready, Init, [0], 2).threads;
  }

  lemma FirstSwitch(slice: nat)
    requires Inv(Two(slice, Ready, Init, [0], 2))
    ensures Schedule(Two(slice, Ready, Init, [0], 2)) == Two(slice, Running, Init, [], 0)
  {
    hide Inv, EmptyLists;
    var s := Two(slice, Ready, Init, [0], 2);
    Spread(s);
    OneTop(s.lists);
    UnlinkOne(s.lists, 0);
    assert Without([0], 0) == [];
    assert SetStat(s.threads, 0, Running) == Two(slice, Running, Init, [], 0).threads;
  }

  lemma SecondStart(slice: nat)
    requires Inv(Two(slice, Running, Init, [], 0))
    ensures Do(Two(slice, Running, Init, [], 0), Start(1)) == Two(slice, Running, Ready, [1], 0)
  {
    hide Inv, EmptyLists;
    var s := Two(slice, Running, Init, [], 0);
    UnlinkOne(s.lists, 1);
    assert s.lists[ReadyList(31) := []] == s.lists && s.lists[ReadyList(31)] + [1] == [1];
    assert Do(s, Start(1)).threads == Two(slice, Running, Ready, [1], 0).threads;
  }

  /** The running thread is not flagged, so its equal waits on. */
  lemma EqualWaits(slice: nat)
    requires Inv(Two(slice, Running, Ready, [1], 0))
    ensures Schedule(Two(slice, Running, Ready, [1], 0)) == Two(slice, Running, Ready, [1], 0)
    ensures Settled(Two(slice, Running, Ready, [1], 0)) && EqualReady(Two(slice, Running, Ready, [1], 0))
  {
    hide Inv, EmptyLists;
    var s := Two(slice, Running, Ready, [1], 0);
    Spread(s);
    OneTop(s.lists);
    forall p, t | On(s.lists, ReadyList(p), t)
      ensures s.threads[s.current].prio <= p
    {
      assert Waiting(s.lists, p);
    }
  }

  /** Somebody of the running thread's priority is first in line. */
  predicate EqualReady(s: State) {
    s.current in s.threads && var k := ReadyList(s.threads[s.current].prio); k in s.lists && s.lists[k] != []
  }

  /** The scheduler is settled and unlocked, an equal of the running thread is ready, and rt_thread_yield does nothing. */
  ghost predicate YieldsNothing(s: State)
    requires Inv(s)
  {
    s.nest == 0 && EqualReady(s) && Settled(s) && Next(s, Yield) == s
  }

  lemma YieldStays(s: State)
    requires Inv(s) && s.nest == 0 && EqualReady(s) && Settled(s) && !s.threads[s.current].flagged
    ensures YieldsNothing(s)
  {
    hide Inv, Settled, Next;
    YieldNeedsFlag(s);
  }

  lemma Step(s: State, a: Action, t: State, u: State)
    requires Inv(s) && Enabled(s, a) && a.Start? && Do(s, a) == t && (Inv(t) ==> Schedule(t) == u)
    ensures Next(s, a) == u && Inv(u)
  {
    hide Inv, Do, Schedule;
    DoKeepsInv(s, a);
    Kept(s, a);
  }

  lemma RunOfTwo(s: State, a: Action, b: Action, idle: Tid)
    requires Inv(s) && Enabled(s, a) && Spares(s, a, idle)
    requires Enabled(Next(s, a), b) && Spares(Next(s, a), b, idle)
    ensures IsRun(s, [a, b], idle) && Inv(Next(s, a)) && After(s, [a, b], idle) == Next(Next(s, a), b)
  {
    hide Inv, Do, Schedule, Next, Enabled, Spares;
    Kept(s, a);
    Kept(Next(s, a), b);
    assert [a, b][0] == a && [a, b][1..] == [b] && [b][1..] == [];
    var s2 := Next(Next(s, a), b);
    assert IsRun(s2, [], idle) && After(s2, [], idle) == s2;
    assert IsRun(Next(s, a), [b], idle) && After(Next(s, a), [b], idle) == s2;
  }

  /** A witness: the system starts, thread 0 gets the processor, its equal 1 is started; yielding to that one does nothing. */
  lemma YieldDoesNothing(slice: nat)
    ensures Inv(Two(slice, Init, Init, [], 2)) && IsRun(Two(slice, Init, Init, [], 2), [Start(0), Start(1)], 0)
    ensures YieldsNothing(After(Two(slice, Init, Init, [], 2), [Start(0), Start(1)], 0))
  {
    hide Inv, Settled, Next, Do, Schedule, EmptyLists, YieldsNothing, EqualReady;
    var s0, s1, s2 := Two(slice, Init, Init, [], 2), Two(slice, Running, Init, [], 0), Two(slice, Running, Ready, [1], 0);
    StartsInv(s0.threads, 2, {});
    assert s0.lists == EmptyLists({});
    FirstStart(slice);
    DoKeepsInv(s0, Start(0));
    FirstSwitch(slice);
    Step(s0, Start(0), Two(slice, Ready, Init, [0], 2), s1);
    SecondStart(slice);
    DoKeepsInv(s1, Start(1));
    EqualWaits(slice);
    Step(s1, Start(1), s2, s2);
    RunOfTwo(s0, Start(0), Start(1), 0);
    YieldStays(s2);
  }

  lemma HeadOn(lists: Lists, p: nat)
    requires Waiting(lists, p)
    ensures On(lists, ReadyList(p), lists[ReadyList(p)][0])
  {
  }
}
