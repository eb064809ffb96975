// The single-core scheduler and the life of a thread (scheduler.c, thread.c, clock.c),
// as functions on one state: the threads, the lists their nodes hang on, and who runs.
module Sched {
  import opened Seqs

  type Tid = nat

  datatype Stat = Init | Ready | Suspended | Running | Closed

  /** flagged is RT_THREAD_STAT_YIELD; slice and left are init_tick and remaining_tick. */
  datatype Thread = Thread(stat: Stat, flagged: bool, prio: nat, initPrio: nat, slice: nat, left: nat, timedOut: bool)

  /** The list heads a thread's tlist can hang on. */
  datatype Key = ReadyList(p: nat) | WaitList(obj: nat) | Defunct

  type Lists = map<Key, seq<Tid>>

  datatype State = State(threads: map<Tid, Thread>, lists: Lists, current: Tid, nest: nat)

  const PRIORITIES: nat := 256

  // ---- lists

  ghost predicate On(lists: Lists, k: Key, t: Tid) {
    k in lists && t in lists[k]
  }

  /** rt_list_remove on a thread's node; nothing happens to a node that is on no list. */
  function Unlink(lists: Lists, t: Tid): Lists {
    map k | k in lists :: Without(lists[k], t)
  }

  function Append(lists: Lists, k: Key, t: Tid): Lists
    requires k in lists
  {
    lists[k := lists[k] + [t]]
  }

  ghost predicate AllDistinct(lists: Lists) {
    forall k :: k in lists ==> Distinct(lists[k])
  }

  function EmptyLists(objects: set<nat>): (l: Lists)
    ensures forall k :: k in l ==> l[k] == []
    ensures forall p: nat :: p < PRIORITIES ==> ReadyList(p) in l
    ensures Defunct in l
  {
    (map k | k in Tables(PRIORITIES) :: []) + (map o | o in objects :: WaitList(o) := []) + map[Defunct := []]
  }

  function Tables(n: nat): (ks: set<Key>)
    ensures forall p: nat :: p < n ==> ReadyList(p) in ks
  {
    if n == 0 then {} else Tables(n - 1) + {ReadyList(n - 1)}
  }

  // ---- scheduler.c

  function SetStat(threads: map<Tid, Thread>, t: Tid, stat: Stat): map<Tid, Thread>
    requires t in threads
  {
    threads[t := threads[t].(stat := stat)]
  }

  /** rt_schedule_insert_thread */
  function Insert(s: State, t: Tid): State
    requires t in s.threads && ReadyList(s.threads[t].prio) in s.lists
  {
    if t == s.current then s.(threads := SetStat(s.threads, t, Running))
    else s.(threads := SetStat(s.threads, t, Ready), lists := Append(s.lists, ReadyList(s.threads[t].prio), t))
  }

  /** rt_schedule_remove_thread, the bitmap aside. */
  function Remove(s: State, t: Tid): State {
    s.(lists := Unlink(s.lists, t))
  }

  ghost predicate Waiting(lists: Lists, p: nat) {
    ReadyList(p) in lists && lists[ReadyList(p)] != []
  }

  /** Some list of the ready table is not empty. */
  ghost predicate SomeReady(lists: Lists) {
    exists p: nat :: Waiting(lists, p)
  }

  ghost predicate IsTop(lists: Lists, p: nat) {
    Waiting(lists, p) && forall q: nat :: Waiting(lists, q) ==> p <= q
  }

  lemma TopExists(lists: Lists, q: nat)
    requires Waiting(lists, q)
    ensures exists p: nat :: IsTop(lists, p)
  {
    if r: nat :| r < q && Waiting(lists, r) {
      TopExists(lists, r);
    } else {
      assert IsTop(lists, q);
    }
  }

  ghost function Top(lists: Lists): (p: nat)
    requires SomeReady(lists)
    ensures IsTop(lists, p)
  {
    var q: nat :| Waiting(lists, q);
    TopExists(lists, q);
    var p: nat :| IsTop(lists, p);
    p
  }

  /** The running thread keeps the processor against a ready thread of priority p. */
  predicate Keeps(running: Thread, p: nat) {
    running.stat == Running && (running.prio < p || (running.prio == p && !running.flagged))
  }

  /** No change of hands: the scheduler is locked, nobody is ready, or the running thread wins. */
  ghost predicate Stays(s: State)
    requires Base(s)
  {
    s.nest != 0 || !SomeReady(s.lists) || Keeps(s.threads[s.current], Top(s.lists))
  }

  /** rt_schedule */
  ghost function Schedule(s: State): State
    requires Base(s)
  {
    if Stays(s) then s else Switch(s, Top(s.lists))
  }

  /** The first thread of list p takes over; a running thread that loses goes to the tail of its own list. */
  function Switch(s: State, p: nat): State
    requires Base(s) && Waiting(s.lists, p)
  {
    var from := s.current;
    var next := s.lists[ReadyList(p)][0];
    assert On(s.lists, ReadyList(p), next);
    var s1 := s.(current := next);
    var s2 := if s.threads[from].stat != Running then s1 else
        Insert(s1.(threads := s.threads[from := s.threads[from].(flagged := false)]), from);
    var s3 := Remove(s2, next);
    s3.(threads := SetStat(s3.threads, next, Running))
  }

  // ---- thread.c

  /** rt_thread_suspend; false stands for -RT_ERROR. */
  function Suspend(s: State, t: Tid): (State, bool)
    requires t in s.threads
  {
    if s.threads[t].stat != Ready && s.threads[t].stat != Running then (s, false)
    else (Remove(s, t).(threads := SetStat(s.threads, t, Suspended)), true)
  }

  /** rt_thread_resume */
  function Resume(s: State, t: Tid): (State, bool)
    requires t in s.threads && ReadyList(s.threads[t].prio) in s.lists
  {
    if s.threads[t].stat != Suspended then (s, false) else (Insert(Remove(s, t), t), true)
  }

  /** rt_thread_timeout up to its rt_schedule. */
  function Expire(s: State, t: Tid): State
    requires t in s.threads && ReadyList(s.threads[t].prio) in s.lists
  {
    Insert(Remove(s, t).(threads := s.threads[t := s.threads[t].(timedOut := true)]), t)
  }

  function SetPrio(s: State, t: Tid, p: nat): State
    requires t in s.threads
  {
    s.(threads := s.threads[t := s.threads[t].(prio := p)])
  }

  /** rt_thread_control with RT_THREAD_CTRL_CHANGE_PRIORITY. */
  function ChangePriority(s: State, t: Tid, p: nat): State
    requires t in s.threads && ReadyList(p) in s.lists
  {
    if s.threads[t].stat == Ready then Insert(SetPrio(Remove(s, t), t, p), t) else SetPrio(s, t, p)
  }

  /** rt_thread_startup up to its rt_schedule. */
  function Startup(s: State, t: Tid): State
    requires t in s.threads && ReadyList(s.threads[t].initPrio) in s.lists
  {
    var th := s.threads[t];
    Resume(s.(threads := s.threads[t := th.(prio := th.initPrio, stat := Suspended, flagged := false)]), t).0
  }

  /** A thread that is on no list is closed; keep: it goes on the defunct list. */
  function Bury(s: State, t: Tid, keep: bool): State
    requires t in s.threads && Defunct in s.lists
  {
    s.(threads := s.threads[t := s.threads[t].(stat := Closed, flagged := false)],
       lists := if keep then s.lists[Defunct := [t] + s.lists[Defunct]] else s.lists)
  }

  /** rt_thread_detach and rt_thread_delete */
  function Close(s: State, t: Tid, keep: bool): State
    requires t in s.threads && Defunct in s.lists
  {
    if s.threads[t].stat == Closed then s
    else Bury(if s.threads[t].stat == Init then s else Remove(s, t), t, keep)
  }

  /** rt_thread_exit up to its rt_schedule; the thread may have been closed before. */
  function Leave(s: State, keep: bool): State
    requires s.current in s.threads && Defunct in s.lists
  {
    Bury(Remove(s, s.current), s.current, keep)
  }

  /** A thread that has just been suspended joins a wait list at position i (rt_ipc_list_suspend). */
  function Enqueue(s: State, t: Tid, obj: nat, i: nat): State
    requires WaitList(obj) in s.lists && i <= |s.lists[WaitList(obj)]|
  {
    s.(lists := s.lists[WaitList(obj) := InsertAt(s.lists[WaitList(obj)], i, t)])
  }

  // ---- clock.c

  /** rt_tick_increase without the timers, up to the rt_schedule of rt_thread_yield. */
  function CountDown(s: State): State
    requires s.current in s.threads && s.threads[s.current].left > 0
  {
    var th := s.threads[s.current];
    s.(threads := s.threads[s.current :=
      if th.left == 1 then th.(left := th.slice, flagged := true) else th.(left := th.left - 1)])
  }

  /** rt_exit_critical up to its rt_schedule. */
  function Unlock(s: State): State {
    s.(nest := if s.nest <= 1 then 0 else s.nest - 1)
  }

  // ---- the invariant

  predicate Fits(k: Key, th: Thread) {
    match k
    case ReadyList(p) => th.stat == Ready && th.prio == p
    case WaitList(_) => th.stat == Suspended
    case Defunct => th.stat == Closed
  }

  /** Well-formed lists: no node twice, on two lists, or on a list that does not fit the thread. */
  ghost predicate Base(s: State) {
    && s.current in s.threads
    && AllDistinct(s.lists)
    && (forall k, t :: On(s.lists, k, t) ==> t in s.threads && Fits(k, s.threads[t]))
    && (forall j, k, t :: On(s.lists, j, t) && On(s.lists, k, t) ==> j == k)
    && (forall p: nat :: p < PRIORITIES ==> ReadyList(p) in s.lists)
    && Defunct in s.lists
    && (forall t :: t in s.threads ==> s.threads[t].prio < PRIORITIES && s.threads[t].initPrio < PRIORITIES)
  }

  /** A ready thread is on its list and only the current thread runs. */
  ghost predicate Placed(s: State, t: Tid)
    requires t in s.threads
  {
    && (s.threads[t].stat == Ready ==> t != s.current && On(s.lists, ReadyList(s.threads[t].prio), t))
    && (s.threads[t].stat == Running ==> t == s.current)
    && (s.threads[t].stat == Init ==> t != s.current)
  }

  ghost predicate Off(lists: Lists, t: Tid) {
    forall k :: !On(lists, k, t)
  }

  /** What holds between any two kernel steps: READY exactly on one's own ready list, RUNNING only the current thread and on no list. */
  ghost predicate Inv(s: State) {
    Base(s) && forall t :: t in s.threads ==> Placed(s, t)
  }

  /** The same while thread t is between lists. */
  ghost predicate InvBut(s: State, t: Tid) {
    Base(s) && t in s.threads && Off(s.lists, t) && forall u :: u in s.threads && u != t ==> Placed(s, u)
  }

  /** The processor belongs to a most urgent thread. */
  ghost predicate Settled(s: State)
    requires s.current in s.threads
  {
    && s.threads[s.current].stat == Running
    && forall p, t :: On(s.lists, ReadyList(p), t) ==> s.threads[s.current].prio <= p
  }
}
