// Time slices: how long a ready thread waits behind the threads of its own priority.
module RoundRobin {
  import opened Seqs
  import opened Sched
  import opened SchedLaws

  /** Time slices are positive, and so is what is left of them. */
  ghost predicate Sliced(s: State) {
    forall t :: t in s.threads ==> s.threads[t].slice > 0 && s.threads[t].left > 0
  }

  ghost predicate Known(threads: map<Tid, Thread>, ts: seq<Tid>) {
    forall t :: t in ts ==> t in threads
  }

  function Sum(threads: map<Tid, Thread>, ts: seq<Tid>): nat
    requires Known(threads, ts)
  {
    if ts == [] then 0 else
      assert ts[0] in ts;
      threads[ts[0]].left + Sum(threads, ts[1..])
  }

  lemma {:induction false} SumAgrees(a: map<Tid, Thread>, b: map<Tid, Thread>, ts: seq<Tid>)
    requires Known(a, ts) && Known(b, ts) && forall t :: t in ts ==> a[t].left == b[t].left
    ensures Sum(a, ts) == Sum(b, ts)
  {
    if ts != [] {
      assert ts[0] in ts;
      SumAgrees(a, b, ts[1..]);
    }
  }

  /** Thread t waits its turn: it is ready at the priority p of the running thread, and nobody more urgent is ready. */
  ghost predicate Queued(s: State, p: nat, t: Tid) {
    Inv(s) && Sliced(s) && s.nest == 0 && Settled(s) && s.threads[s.current].prio == p && On(s.lists, ReadyList(p), t)
  }

  /** The threads ahead of t on list p. */
  ghost function Ahead(s: State, p: nat, t: Tid): seq<Tid>
    requires On(s.lists, ReadyList(p), t)
  {
    s.lists[ReadyList(p)][..IndexOf(s.lists[ReadyList(p)], t)]
  }

  lemma AheadKnown(s: State, p: nat, t: Tid)
    requires Base(s) && On(s.lists, ReadyList(p), t)
    ensures Known(s.threads, Ahead(s, p, t))
  {
    forall u | u in Ahead(s, p, t)
      ensures u in s.threads
    {
      assert On(s.lists, ReadyList(p), u);
    }
  }

  /** What the running thread and those ahead have left. */
  ghost function Due(s: State, p: nat, t: Tid): nat
    requires Base(s) && On(s.lists, ReadyList(p), t)
  {
    AheadKnown(s, p, t);
    s.threads[s.current].left + Sum(s.threads, Ahead(s, p, t))
  }

  ghost predicate AheadUnflagged(s: State, p: nat, t: Tid)
    requires Base(s) && On(s.lists, ReadyList(p), t)
  {
    AheadKnown(s, p, t);
    forall u :: u in Ahead(s, p, t) ==> !s.threads[u].flagged
  }

  /** Nobody up to t has a reload of its slice pending from a time without competition. */
  ghost predicate Unflagged(s: State, p: nat, t: Tid)
    requires Base(s) && On(s.lists, ReadyList(p), t)
  {
    !s.threads[s.current].flagged && AheadUnflagged(s, p, t)
  }

  /** What may happen meanwhile: ticks, and arrivals that are not more urgent than p. */
  ghost predicate Calm(s: State, a: Action, p: nat) {
    match a
    case ClockTick => true
    case Yield => true
    case Start(u) => u in s.threads && p <= s.threads[u].initPrio
    case Wake(u) => u in s.threads && p <= s.threads[u].prio
    case TimeOut(u) => u in s.threads && p <= s.threads[u].prio
    case _ => false
  }

  // ---- one change of hands

  /** The head of list p runs, the loser is at the tail, and nobody's remaining time changes. */
  lemma SwitchRotates(s: State, p: nat)
    requires Inv(s) && Waiting(s.lists, p) && s.threads[s.current].stat == Running && s.threads[s.current].prio == p
    ensures var s' := Switch(s, p); var l := s.lists[ReadyList(p)];
      && s'.current == l[0] && ReadyList(p) in s'.lists && s'.lists[ReadyList(p)] == l[1..] + [s.current]
      && s'.threads.Keys == s.threads.Keys && s'.nest == s.nest
      && (forall u :: u in s.threads ==> s'.threads[u].left == s.threads[u].left && s'.threads[u].slice == s.threads[u].slice)
      && (forall u :: u in s.threads && u != s.current ==> s'.threads[u].flagged == s.threads[u].flagged)
      && s'.threads[s'.current].prio == p
  {
    NextIsReady(s, p);
    var l := s.lists[ReadyList(p)];
    OffInit(s, s.current);
    assert !On(s.lists, ReadyList(p), s.current);
    AppendDistinct(l, s.current);
    DistinctIndexOf(l + [s.current], 0);
    assert (l + [s.current])[1..] == l[1..] + [s.current];
  }

  lemma AppendDistinct(l: seq<Tid>, t: Tid)
    requires Distinct(l) && t !in l
    ensures Distinct(l + [t])
  {
  }

  lemma TailIndex(l: seq<Tid>, x: Tid, t: Tid)
    requires t in l && l[0] != t
    ensures t in l[1..] + [x]
    ensures IndexOf(l[1..] + [x], t) == IndexOf(l, t) - 1
    ensures (l[1..] + [x])[..IndexOf(l, t) - 1] == l[..IndexOf(l, t)][1..]
  {
    assert l == [l[0]] + l[1..];
    PrefixIndex(l[1..], l[1..] + [x], t);
  }

  lemma {:induction false} PrefixIndex(l: seq<Tid>, m: seq<Tid>, t: Tid)
    requires t in l && l <= m
    ensures t in m && IndexOf(m, t) == IndexOf(l, t)
    ensures m[..IndexOf(m, t)] == l[..IndexOf(l, t)]
  {
    assert m[..|l|] == l;
    if l[0] != t {
      assert l == [l[0]] + l[1..];
      PrefixIndex(l[1..], m[1..], t);
    }
  }

  lemma AheadIsPrefix(s: State, p: nat, t: Tid)
    requires Base(s) && On(s.lists, ReadyList(p), t)
    ensures var l := s.lists[ReadyList(p)];
      && (Ahead(s, p, t) == [] <==> l[0] == t)
      && (l[0] != t ==> Ahead(s, p, t)[0] == l[0])
      && forall u :: u in Ahead(s, p, t) ==> u in l && u != t && u in s.threads
  {
    var l := s.lists[ReadyList(p)];
    forall u | u in Ahead(s, p, t)
      ensures u in l && u != t && u in s.threads
    {
      assert On(s.lists, ReadyList(p), u);
    }
  }

  /** When the processor changes hands at priority p, t either gets it or owes the loser's time no more. */
  lemma SwitchAdvances(s: State, p: nat, t: Tid)
    requires Queued(s, p, t) && IsTop(s.lists, p)
    ensures var s' := Switch(s, p); var l := s.lists[ReadyList(p)];
      && (s'.current == t <==> l[0] == t)
      && (l[0] == t ==> Due(s, p, t) == s.threads[s.current].left)
      && (l[0] != t ==> Queued(s', p, t) && Due(s', p, t) == Due(s, p, t) - s.threads[s.current].left)
      && (l[0] != t && AheadUnflagged(s, p, t) ==> Unflagged(s', p, t))
  {
    hide Distinct, Switch, Inv;
    SwitchRotates(s, p);
    SwitchKeepsInv(s, p);
    Spread(s);
    Spread(Switch(s, p));
    AheadIsPrefix(s, p, t);
    AheadKnown(s, p, t);
    if s.lists[ReadyList(p)][0] != t {
      var s' := Switch(s, p);
      TailIndex(s.lists[ReadyList(p)], s.current, t);
      assert Ahead(s', p, t) == Ahead(s, p, t)[1..];
      NextRuns(s, p);
      AheadKnown(s', p, t);
      forall u | u in Ahead(s', p, t)
        ensures u in Ahead(s, p, t) && s'.threads[u].left == s.threads[u].left
      {
      }
      SumAgrees(s.threads, s'.threads, Ahead(s, p, t)[1..]);
      CurrentNotAhead(s, p, t);
    }
  }

  lemma NextRuns(s: State, p: nat)
    requires Inv(s) && IsTop(s.lists, p) && s.current in s.threads && s.threads[s.current].prio == p
    ensures var s' := Switch(s, p); s'.current in s'.threads && Settled(s')
  {
    hide Distinct;
    SwitchKeepsInv(s, p);
    SwitchSettles(s, p);
  }

  lemma CurrentNotAhead(s: State, p: nat, t: Tid)
    requires Inv(s) && On(s.lists, ReadyList(p), t)
    ensures s.current !in Ahead(s, p, t)
  {
    assert Placed(s, s.current);
    assert !On(s.lists, ReadyList(p), s.current);
  }

  lemma TopIsP(s: State, p: nat, t: Tid)
    requires Queued(s, p, t)
    ensures IsTop(s.lists, p) && SomeReady(s.lists) && Top(s.lists) == p
  {
    OnWaits(s.lists, p, t);
    forall q: nat | Waiting(s.lists, q)
      ensures p <= q
    {
      assert On(s.lists, ReadyList(q), s.lists[ReadyList(q)][0]);
    }
  }

  /** rt_schedule while t is queued. */
  lemma ScheduleAdvances(s: State, p: nat, t: Tid)
    requires Queued(s, p, t)
    ensures var s' := Schedule(s);
      && (!s.threads[s.current].flagged ==> s' == s)
      && (s.threads[s.current].flagged ==> s' == Switch(s, p))
  {
    TopIsP(s, p, t);
  }

  // ---- one step

  lemma TickAdvances(s: State, p: nat, t: Tid)
    requires Queued(s, p, t) && Enabled(s, ClockTick)
    ensures var s' := Next(s, ClockTick);
      && (s'.current == t <==> Due(s, p, t) == 1)
      && (s'.current != t ==> Queued(s', p, t) && Due(s', p, t) == Due(s, p, t) - 1)
      && (s'.current != t && Unflagged(s, p, t) ==> Unflagged(s', p, t))
  {
    hide Distinct, Switch, Inv, Schedule, InvBut;
    var s1 := CountDown(s);
    Spread(s);
    CountDownKeepsInv(s);
    AheadKnown(s, p, t);
    CurrentNotAhead(s, p, t);
    AheadKnown(s1, p, t);
    SumAgrees(s.threads, s1.threads, Ahead(s, p, t));
    assert Queued(s1, p, t);
    NotCurrent(s, p, t);
    if s.threads[s.current].left == 1 {
      ScheduleAdvances(s1, p, t);
      TopIsP(s1, p, t);
      SwitchAdvances(s1, p, t);
      AheadIsPrefix(s, p, t);
    }
  }

  lemma NotCurrent(s: State, p: nat, t: Tid)
    requires Queued(s, p, t)
    ensures s.current != t
  {
    assert Placed(s, s.current);
  }

  /** Nothing about the running thread or list p changes, except that threads may have joined the tail. */
  ghost predicate Extends(s: State, s1: State, p: nat)
    requires ReadyList(p) in s.lists && Base(s)
  {
    && s1.current == s.current && s1.nest == s.nest
    && s.threads.Keys <= s1.threads.Keys
    && s1.threads[s.current] == s.threads[s.current]
    && ReadyList(p) in s1.lists && s.lists[ReadyList(p)] <= s1.lists[ReadyList(p)]
    && (forall u :: u in s.lists[ReadyList(p)] ==> u in s.threads && s1.threads[u] == s.threads[u])
    && (forall q, u :: On(s1.lists, ReadyList(q), u) ==> p <= q)
    && Sliced(s1)
  }

  /** A suspended thread that becomes ready at a priority that is not more urgent. */
  lemma InsertExtends(s: State, p: nat, u: Tid, th: Thread)
    requires Inv(s) && Sliced(s) && Settled(s) && s.threads[s.current].prio == p && p < PRIORITIES
    requires u in s.threads && (s.threads[u].stat == Suspended || s.threads[u].stat == Init)
    requires th.slice > 0 && th.left > 0 && p <= th.prio < PRIORITIES
    ensures Extends(s, Insert(Remove(s, u).(threads := s.threads[u := th]), u), p)
  {
    hide Distinct;
    assert Placed(s, u) && u != s.current;
    var l := s.lists[ReadyList(p)];
    assert !On(s.lists, ReadyList(p), u);
    UnlinkOn(s.lists, u);
    AppendOn(Unlink(s.lists, u), ReadyList(th.prio), u);
    var s1 := Insert(Remove(s, u).(threads := s.threads[u := th]), u);
    forall q, v | On(s1.lists, ReadyList(q), v)
      ensures p <= q
    {
      if v != u { assert On(s.lists, ReadyList(q), v); }
    }
    forall v | v in l
      ensures v in s.threads && s1.threads[v] == s.threads[v]
    {
      assert On(s.lists, ReadyList(p), v);
    }
  }

  lemma ArrivalExtends(s: State, a: Action, p: nat)
    requires Inv(s) && Sliced(s) && Settled(s) && s.threads[s.current].prio == p && p < PRIORITIES
    requires Enabled(s, a) && Calm(s, a, p) && !a.ClockTick?
    ensures Extends(s, Do(s, a), p)
  {
    hide Distinct, Insert, Unlink, Inv, Extends;
    Spread(s);
    match a
    case Start(u) =>
      OffInit(s, u);
      var th := s.threads[u].(prio := s.threads[u].initPrio, stat := Suspended, flagged := false);
      InsertExtends(s, p, u, th);
    case Wake(u) =>
      if s.threads[u].stat == Suspended {
        InsertExtends(s, p, u, s.threads[u]);
        assert s.threads[u := s.threads[u]] == s.threads;
      } else {
        ExtendsItself(s, p);
      }
    case TimeOut(u) => InsertExtends(s, p, u, s.threads[u].(timedOut := true));
    case Yield => ExtendsItself(s, p);
  }

  lemma ExtendsItself(s: State, p: nat)
    requires Inv(s) && Sliced(s) && Settled(s) && s.threads[s.current].prio == p && p < PRIORITIES
    ensures Extends(s, s, p)
  {
    forall u | u in s.lists[ReadyList(p)]
      ensures u in s.threads
    {
      assert On(s.lists, ReadyList(p), u);
    }
  }

  lemma ExtensionKeepsDue(s: State, s1: State, p: nat, t: Tid)
    requires Queued(s, p, t) && p < PRIORITIES && Inv(s1) && Extends(s, s1, p)
    ensures Queued(s1, p, t) && Due(s1, p, t) == Due(s, p, t)
    ensures Unflagged(s, p, t) ==> Unflagged(s1, p, t)
  {
    hide Distinct, Inv;
    Spread(s);
    Spread(s1);
    var l := s.lists[ReadyList(p)];
    PrefixIndex(l, s1.lists[ReadyList(p)], t);
    assert Ahead(s1, p, t) == Ahead(s, p, t);
    AheadIsPrefix(s, p, t);
    AheadKnown(s, p, t);
    AheadKnown(s1, p, t);
    SumAgrees(s.threads, s1.threads, Ahead(s, p, t));
  }

  lemma ArrivalAdvances(s: State, a: Action, p: nat, t: Tid)
    requires Queued(s, p, t) && p < PRIORITIES && Enabled(s, a) && Calm(s, a, p) && !a.ClockTick?
    ensures var s' := Next(s, a);
      && (s'.current != t ==> Queued(s', p, t) && Due(s', p, t) <= Due(s, p, t))
      && (Unflagged(s, p, t) ==> s'.current != t && Unflagged(s', p, t) && Due(s', p, t) == Due(s, p, t))
  {
    hide Distinct, Inv, Do, Extends, Switch, Schedule, Calm, Due, Unflagged, Queued, Ahead;
    Facts(s, p, t);
    var s1 := Do(s, a);
    ArrivalExtends(s, a, p);
    DoKeepsInv(s, a);
    ExtensionKeepsDue(s, s1, p, t);
    Facts(s1, p, t);
    NotCurrent(s1, p, t);
    if Schedules(s, a) {
      ScheduleAdvances(s1, p, t);
      if s1.threads[s1.current].flagged {
        TopIsP(s1, p, t);
        SwitchAdvances(s1, p, t);
      }
    }
  }

  lemma Facts(s: State, p: nat, t: Tid)
    requires Queued(s, p, t)
    ensures Inv(s) && Sliced(s) && s.nest == 0 && Settled(s) && s.threads[s.current].prio == p && On(s.lists, ReadyList(p), t)
    ensures Base(s) && s.lists[ReadyList(p)] != []
    ensures Unflagged(s, p, t) ==> !s.threads[s.current].flagged
    ensures Due(s, p, t) >= 1
  {
  }

  // ---- runs

  ghost predicate CalmRun(s: State, steps: seq<Action>, p: nat)
    requires Inv(s)
    decreases |steps|
  {
    steps != [] ==>
      && Enabled(s, steps[0]) && Calm(s, steps[0], p)
      && (Kept(s, steps[0]); CalmRun(Next(s, steps[0]), steps[1..], p))
  }

  /** Some state of the run, the first included, has t running. */
  ghost predicate Reached(s: State, steps: seq<Action>, p: nat, t: Tid)
    requires Inv(s) && CalmRun(s, steps, p)
    decreases |steps|
  {
    s.current == t || (steps != [] && (Kept(s, steps[0]); Reached(Next(s, steps[0]), steps[1..], p, t)))
  }

  function Ticks(steps: seq<Action>): nat {
    if steps == [] then 0 else (if steps[0].ClockTick? then 1 else 0) + Ticks(steps[1..])
  }

  /** Round robin: t gets the processor within the ticks that the running thread and those ahead have left, and without stale yield flags exactly then. */
  lemma {:induction false} TurnComes(s: State, steps: seq<Action>, p: nat, t: Tid)
    requires Queued(s, p, t) && p < PRIORITIES && CalmRun(s, steps, p)
    ensures Ticks(steps) >= Due(s, p, t) ==> Reached(s, steps, p, t)
    ensures Unflagged(s, p, t) ==> (Reached(s, steps, p, t) <==> Ticks(steps) >= Due(s, p, t))
    decreases |steps|
  {
    hide Distinct, Inv, Due, Unflagged, Queued, Ahead, Next, Calm;
    Facts(s, p, t);
    NotCurrent(s, p, t);
    if steps != [] {
      Kept(s, steps[0]);
      var s' := Next(s, steps[0]);
      if steps[0].ClockTick? {
        TickAdvances(s, p, t);
      } else {
        ArrivalAdvances(s, steps[0], p, t);
      }
      if s'.current != t {
        TurnComes(s', steps[1..], p, t);
      }
    }
  }
}
