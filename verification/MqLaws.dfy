// What every interleaving of senders, receivers, timeouts and resets keeps.
module MqLaws {
  import opened Seqs
  import opened Words
  import opened MqSpec

  // ---- each slot is in exactly one place

  predicate Holds(phase: map<Tid, Phase>, t: Tid, slot: Slot) {
    t in phase && HasSlot(phase[t]) && phase[t].slot == slot
  }

  ghost predicate InHand(phase: map<Tid, Phase>, slot: Slot) {
    exists t: Tid :: Holds(phase, t, slot)
  }

  /** Every slot is in the queue, on the free list or in one thread's hands, and in only one of these, once. */
  ghost predicate Slots(c: Core, phase: map<Tid, Phase>, max: nat) {
    && Distinct(c.queue) && Distinct(c.free)
    && (forall x :: x in c.queue ==> x < max && x !in c.free && !InHand(phase, x))
    && (forall x :: x in c.free ==> x < max && !InHand(phase, x))
    && (forall t: Tid, x: Slot :: Holds(phase, t, x) ==> x < max)
    && (forall t: Tid, u: Tid, x: Slot :: Holds(phase, t, x) && Holds(phase, u, x) ==> t == u)
    && (forall x: Slot :: x < max ==> x in c.queue || x in c.free || InHand(phase, x))
    && c.entry == |c.queue|
  }

  // ---- copies in flight are of what they should be

  ghost predicate Intact(s: State, p: Phase, msgSize: nat) {
    && (p.SendWaiting? || p.SendWoken? ==> 0 < |p.buf| <= msgSize)
    && (p.SendHolding? ==> 0 < |p.buf| <= msgSize)
    && (p.SendCopied? ==> p.slot < |s.data| && p.buf <= s.data[p.slot])
    && (p.RecvHolding? ==> p.slot < |s.data| && p.msg == s.data[p.slot])
    && (p.RecvCopied? ==> p.got <= p.msg && |p.got| == Min(p.size, msgSize))
  }

  ghost predicate Contents(s: State, max: nat, msgSize: nat) {
    && |s.data| == max
    && (forall i :: 0 <= i < max ==> |s.data[i]| == msgSize)
    && (forall t :: t in s.phase ==> Intact(s, s.phase[t], msgSize))
  }

  // ---- the waiting lists hold the waiting threads

  ghost predicate Waiters(s: State) {
    && Distinct(s.senders) && Distinct(s.receivers)
    && (forall t :: t in s.senders <==> t in s.phase && s.phase[t].SendWaiting?)
    && (forall t :: t in s.receivers <==> t in s.phase && s.phase[t].RecvWaiting?)
  }

  function WokenSenders(phase: map<Tid, Phase>): set<Tid> {
    set t | t in phase && phase[t].SendWoken?
  }

  function WokenReceivers(phase: map<Tid, Phase>): set<Tid> {
    set t | t in phase && phase[t].RecvWoken?
  }

  /** Nobody sleeps next to something to take, unless enough others have been woken to take it. */
  ghost predicate ReceiversServed(queue: seq<Slot>, phase: map<Tid, Phase>, receivers: seq<Tid>) {
    receivers != [] ==> |queue| <= |WokenReceivers(phase)|
  }

  ghost predicate SendersServed(free: seq<Slot>, phase: map<Tid, Phase>, senders: seq<Tid>) {
    senders != [] ==> |free| <= |WokenSenders(phase)|
  }

  ghost predicate NoneStranded(s: State) {
    ReceiversServed(s.core.queue, s.phase, s.receivers) && SendersServed(s.core.free, s.phase, s.senders)
  }

  ghost predicate Inv(s: State, max: nat, msgSize: nat) {
    Slots(s.core, s.phase, max) && Contents(s, max, msgSize) && Waiters(s) && NoneStranded(s)
  }

  // ---- changing one thread's phase

  /** Phases that hold the same slots. */
  ghost predicate SameHands(phase: map<Tid, Phase>, phase': map<Tid, Phase>) {
    forall t: Tid, x: Slot :: Holds(phase, t, x) <==> Holds(phase', t, x)
  }

  lemma SameHandsSlots(c: Core, phase: map<Tid, Phase>, phase': map<Tid, Phase>, max: nat)
    requires Slots(c, phase, max) && SameHands(phase, phase')
    ensures Slots(c, phase', max)
  {
    forall x: Slot
      ensures InHand(phase, x) <==> InHand(phase', x)
    {
      if InHand(phase, x) {
        var t: Tid :| Holds(phase, t, x);
        assert Holds(phase', t, x);
      }
      if InHand(phase', x) {
        var t: Tid :| Holds(phase', t, x);
        assert Holds(phase, t, x);
      }
    }
  }

  /** Thread t comes to hold slot p.slot and nobody else's hands change. */
  lemma Grasp(phase: map<Tid, Phase>, phase': map<Tid, Phase>, t: Tid, p: Phase)
    requires t in phase && !HasSlot(phase[t]) && HasSlot(p) && phase' == phase[t := p]
    ensures forall u: Tid, x: Slot :: Holds(phase', u, x) <==> (u == t && x == p.slot) || Holds(phase, u, x)
    ensures forall x: Slot :: InHand(phase', x) <==> x == p.slot || InHand(phase, x)
  {
    assert Holds(phase', t, p.slot);
    forall x: Slot
      ensures InHand(phase', x) <==> x == p.slot || InHand(phase, x)
    {
      if InHand(phase, x) {
        var u: Tid :| Holds(phase, u, x);
        assert Holds(phase', u, x);
      }
      if InHand(phase', x) {
        var u: Tid :| Holds(phase', u, x);
        assert u != t ==> Holds(phase, u, x);
      }
    }
  }

  /** A thread without a slot takes one off the free list or the queue. */
  lemma TakeKeepsSlots(c: Core, c': Core, phase: map<Tid, Phase>, phase': map<Tid, Phase>, max: nat, t: Tid, p: Phase)
    requires Slots(c, phase, max) && t in phase && !HasSlot(phase[t]) && HasSlot(p) && phase' == phase[t := p]
    requires || (c.free != [] && p.slot == c.free[0] && c' == TakeFree(c))
             || (c.queue != [] && p.slot == c.queue[0] && c' == TakeHead(c))
    ensures Slots(c', phase', max)
  {
    Grasp(phase, phase', t, p);
    if c.free != [] { TailMembers(c.free); }
    if c.queue != [] { TailMembers(c.queue); }
    assert !InHand(phase, p.slot);
  }

  /** The thread that holds a slot gives it to the queue or to the free list. */
  lemma GiveKeepsSlots(c: Core, c': Core, phase: map<Tid, Phase>, phase': map<Tid, Phase>, max: nat, t: Tid)
    requires Slots(c, phase, max) && t in phase && HasSlot(phase[t]) && phase' == phase[t := Idle]
    requires var x := phase[t].slot; c' == LinkTail(c, x) || c' == LinkHead(c, x) || c' == PutFree(c, x)
    ensures Slots(c', phase', max)
  {
    var x := phase[t].slot;
    assert phase == phase'[t := phase[t]];
    Grasp(phase', phase, t, phase[t]);
    assert Holds(phase, t, x) && InHand(phase, x);
    InsertMembers(c.queue, 0, x);
    InsertMembers(c.queue, |c.queue|, x);
    InsertMembers(c.free, 0, x);
    assert InsertAt(c.queue, 0, x) == [x] + c.queue && InsertAt(c.queue, |c.queue|, x) == c.queue + [x];
    assert InsertAt(c.free, 0, x) == [x] + c.free;
  }

  lemma {:induction false} ReverseMembers(s: seq<Slot>)
    requires Distinct(s)
    ensures Distinct(Reverse(s)) && |Reverse(s)| == |s| && forall x :: x in Reverse(s) <==> x in s
  {
    if s != [] {
      TailMembers(s);
      ReverseMembers(s[1..]);
      InsertMembers(Reverse(s[1..]), |s| - 1, s[0]);
      assert InsertAt(Reverse(s[1..]), |s| - 1, s[0]) == Reverse(s);
    }
  }

  lemma ClearKeepsSlots(c: Core, phase: map<Tid, Phase>, max: nat)
    requires Slots(c, phase, max)
    ensures Slots(Clear(c), phase, max)
  {
    ReverseMembers(c.queue);
    var r := Reverse(c.queue);
    var f := r + c.free;
    forall i, j | 0 <= i < j < |f|
      ensures f[i] != f[j]
    {
      if i < |r| <= j { assert r[i] in r && c.free[j - |r|] in c.free; }
    }
  }

  lemma LinkKeepsSlots(s: State, t: Tid, max: nat, msgSize: nat)
    requires Inv(s, max, msgSize) && Enabled(s, SendLink(t), msgSize)
    ensures Slots(Next(s, SendLink(t), msgSize).core, Next(s, SendLink(t), msgSize).phase, max)
  {
    hide Slots, Contents, NoneStranded;
    var s', mid := Next(s, SendLink(t), msgSize), s.phase[t := Idle];
    GiveKeepsSlots(s.core, s'.core, s.phase, mid, max, t);
    if s.receivers != [] { assert s.receivers[0] in s.receivers; }
    SameHandsSlots(s'.core, mid, s'.phase, max);
  }

  lemma PutKeepsSlots(s: State, t: Tid, max: nat, msgSize: nat)
    requires Inv(s, max, msgSize) && Enabled(s, RecvPut(t), msgSize)
    ensures Slots(Next(s, RecvPut(t), msgSize).core, Next(s, RecvPut(t), msgSize).phase, max)
  {
    hide Slots, Contents, NoneStranded;
    var s', mid := Next(s, RecvPut(t), msgSize), s.phase[t := Idle];
    GiveKeepsSlots(s.core, s'.core, s.phase, mid, max, t);
    if s.senders != [] { assert s.senders[0] in s.senders; }
    SameHandsSlots(s'.core, mid, s'.phase, max);
  }

  /** Every step keeps every slot in exactly one place. */
  lemma StepKeepsSlots(s: State, a: Action, max: nat, msgSize: nat)
    requires Inv(s, max, msgSize) && Enabled(s, a, msgSize)
    ensures Slots(Next(s, a, msgSize).core, Next(s, a, msgSize).phase, max)
  {
    hide Slots, Contents, Waiters, NoneStranded, Clear, InsertAt, Without;
    var s' := Next(s, a, msgSize);
    match a
    case SendTake(t, buf, urgent) => TakeKeepsSlots(s.core, s'.core, s.phase, s'.phase, max, t, s'.phase[t]);
    case RecvTake(t) => TakeKeepsSlots(s.core, s'.core, s.phase, s'.phase, max, t, s'.phase[t]);
    case SendLink(t) => LinkKeepsSlots(s, t, max, msgSize);
    case RecvPut(t) => PutKeepsSlots(s, t, max, msgSize);
    case Reset =>
      ClearKeepsSlots(s.core, s.phase, max);
      SameHandsSlots(s'.core, s.phase, s'.phase, max);
    case _ => SameHandsSlots(s.core, s.phase, s'.phase, max);
  }

  /** The copy into a slot is the holder's own business. */
  lemma CopyKeepsContents(s: State, t: Tid, max: nat, msgSize: nat)
    requires Inv(s, max, msgSize) && Enabled(s, SendCopy(t), msgSize)
    ensures Contents(Next(s, SendCopy(t), msgSize), max, msgSize)
  {
    hide NoneStranded, Waiters;
    var s' := Next(s, SendCopy(t), msgSize);
    forall u | u in s'.phase
      ensures Intact(s', s'.phase[u], msgSize)
    {
      assert Intact(s, s.phase[u], msgSize);
      if u != t && HasSlot(s.phase[u]) {
        assert Holds(s.phase, u, s.phase[u].slot) && Holds(s.phase, t, s.phase[t].slot);
      }
    }
  }

  lemma TakeKeepsContents(s: State, t: Tid, max: nat, msgSize: nat)
    requires Inv(s, max, msgSize) && Enabled(s, RecvTake(t), msgSize)
    ensures Contents(Next(s, RecvTake(t), msgSize), max, msgSize)
  {
    hide NoneStranded, Waiters;
    assert s.core.queue[0] in s.core.queue;
    var s' := Next(s, RecvTake(t), msgSize);
    forall u | u in s'.phase
      ensures Intact(s', s'.phase[u], msgSize)
    {
      assert u != t ==> Intact(s, s.phase[u], msgSize);
    }
  }

  lemma ReturnKeepsContents(s: State, a: Action, max: nat, msgSize: nat)
    requires Inv(s, max, msgSize) && Enabled(s, a, msgSize) && (a.SendLink? || a.RecvPut?)
    ensures Contents(Next(s, a, msgSize), max, msgSize)
  {
    hide NoneStranded, Slots;
    var s' := Next(s, a, msgSize);
    if a.RecvPut? && s.senders != [] { assert s.senders[0] in s.senders; }
    if a.SendLink? && s.receivers != [] { assert s.receivers[0] in s.receivers; }
    forall u | u in s'.phase
      ensures Intact(s', s'.phase[u], msgSize)
    {
      if u in s.phase { assert Intact(s, s.phase[u], msgSize); }
    }
  }

  /** No step spoils a copy in flight: a slot in someone's hands is written by its holder only. */
  lemma StepKeepsContents(s: State, a: Action, max: nat, msgSize: nat)
    requires Inv(s, max, msgSize) && Enabled(s, a, msgSize)
    ensures Contents(Next(s, a, msgSize), max, msgSize)
  {
    hide Inv, Contents, Next;
    if a.SendCopy? {
      CopyKeepsContents(s, a.t, max, msgSize);
    } else if a.RecvTake? {
      TakeKeepsContents(s, a.t, max, msgSize);
    } else if a.SendLink? || a.RecvPut? {
      ReturnKeepsContents(s, a, max, msgSize);
    } else {
      RestKeepsContents(s, a, max, msgSize);
    }
  }

  /** Steps that write to no slot and change the phase of their own thread only, or release it. */
  lemma RestKeepsContents(s: State, a: Action, max: nat, msgSize: nat)
    requires Inv(s, max, msgSize) && Enabled(s, a, msgSize) && !a.SendCopy? && !a.RecvTake? && !a.SendLink? && !a.RecvPut?
    ensures Contents(Next(s, a, msgSize), max, msgSize)
  {
    hide NoneStranded, Slots, Waiters, InsertAt, Without, Clear, Intact;
    var s' := Next(s, a, msgSize);
    if !a.Reset? {
      OwnIntact(s, a, max, msgSize);
    }
    forall t | t in s'.phase
      ensures Intact(s', s'.phase[t], msgSize)
    {
      SameIntact(s, s', s.phase[t], msgSize);
      IdleIntact(s', msgSize);
    }
  }

  lemma SameIntact(s: State, s': State, p: Phase, msgSize: nat)
    requires s'.data == s.data
    ensures Intact(s, p, msgSize) <==> Intact(s', p, msgSize)
  {
  }

  lemma IdleIntact(s: State, msgSize: nat)
    ensures Intact(s, Idle, msgSize)
  {
  }

  lemma OwnIntact(s: State, a: Action, max: nat, msgSize: nat)
    requires Inv(s, max, msgSize) && Enabled(s, a, msgSize)
    requires !a.SendCopy? && !a.RecvTake? && !a.SendLink? && !a.RecvPut? && !a.Reset?
    ensures a.t in Next(s, a, msgSize).phase && Intact(Next(s, a, msgSize), Next(s, a, msgSize).phase[a.t], msgSize)
  {
    hide NoneStranded, Slots, Waiters, InsertAt, Without;
    assert Intact(s, s.phase[a.t], msgSize);
  }

  lemma WakingKeepsWaiters(s: State, a: Action, msgSize: nat)
    requires Waiters(s) && Enabled(s, a, msgSize) && (a.SendLink? || a.RecvPut?)
    ensures Waiters(Next(s, a, msgSize))
  {
    hide Distinct;
    if s.receivers != [] { TailMembers(s.receivers); assert s.receivers[0] in s.receivers; }
    if s.senders != [] { TailMembers(s.senders); assert s.senders[0] in s.senders; }
  }

  lemma StepKeepsWaiters(s: State, a: Action, max: nat, msgSize: nat)
    requires Inv(s, max, msgSize) && Enabled(s, a, msgSize)
    ensures Waiters(Next(s, a, msgSize))
  {
    hide Slots, Contents, NoneStranded, InsertAt, Without, Distinct;
    match a
    case SendBlock(t, _, at) => InsertMembers(s.senders, at, t);
    case RecvBlock(t, at) => InsertMembers(s.receivers, at, t);
    case SendLink(_) => WakingKeepsWaiters(s, a, msgSize);
    case RecvPut(_) => WakingKeepsWaiters(s, a, msgSize);
    case Timeout(t) =>
      WithoutMembers(s.senders, t);
      WithoutMembers(s.receivers, t);
    case Reset => assert Distinct<Tid>([]) by { NoneDistinct(); }
    case _ =>
  }

  lemma NoneDistinct()
    ensures Distinct<Tid>([])
  {
  }

  // ---- nobody is stranded

  lemma WokenReceiversAfter(phase: map<Tid, Phase>, t: Tid, p: Phase)
    requires t in phase
    ensures |WokenReceivers(phase[t := p])| == |WokenReceivers(phase)| + (if p.RecvWoken? then 1 else 0) - (if phase[t].RecvWoken? then 1 else 0)
  {
    var w := WokenReceivers(phase);
    if p.RecvWoken? {
      assert WokenReceivers(phase[t := p]) == w + {t};
    } else {
      assert WokenReceivers(phase[t := p]) == w - {t};
    }
  }

  lemma WokenSendersAfter(phase: map<Tid, Phase>, t: Tid, p: Phase)
    requires t in phase
    ensures |WokenSenders(phase[t := p])| == |WokenSenders(phase)| + (if p.SendWoken? then 1 else 0) - (if phase[t].SendWoken? then 1 else 0)
  {
    var w := WokenSenders(phase);
    if p.SendWoken? {
      assert WokenSenders(phase[t := p]) == w + {t};
    } else {
      assert WokenSenders(phase[t := p]) == w - {t};
    }
  }

  lemma LinkServes(s: State, t: Tid, max: nat, msgSize: nat)
    requires Inv(s, max, msgSize) && Enabled(s, SendLink(t), msgSize)
    ensures NoneStranded(Next(s, SendLink(t), msgSize))
  {
    var mid := s.phase[t := Idle];
    WokenReceiversAfter(s.phase, t, Idle);
    WokenSendersAfter(s.phase, t, Idle);
    if s.receivers != [] {
      assert s.receivers[0] in s.receivers;
      WokenReceiversAfter(mid, s.receivers[0], RecvWoken);
      WokenSendersAfter(mid, s.receivers[0], RecvWoken);
    }
  }

  lemma PutServes(s: State, t: Tid, max: nat, msgSize: nat)
    requires Inv(s, max, msgSize) && Enabled(s, RecvPut(t), msgSize)
    ensures NoneStranded(Next(s, RecvPut(t), msgSize))
  {
    var mid := s.phase[t := Idle];
    WokenReceiversAfter(s.phase, t, Idle);
    WokenSendersAfter(s.phase, t, Idle);
    if s.senders != [] {
      var u := s.senders[0];
      assert u in s.senders;
      WokenReceiversAfter(mid, u, SendWoken(s.phase[u].buf));
      WokenSendersAfter(mid, u, SendWoken(s.phase[u].buf));
    }
  }

  lemma StepKeepsNoneStranded(s: State, a: Action, max: nat, msgSize: nat)
    requires Inv(s, max, msgSize) && Enabled(s, a, msgSize)
    ensures NoneStranded(Next(s, a, msgSize))
  {
    var s' := Next(s, a, msgSize);
    match a
    case SendLink(t) => LinkServes(s, t, max, msgSize);
    case RecvPut(t) => PutServes(s, t, max, msgSize);
    case Reset =>
    case _ =>
      WokenReceiversAfter(s.phase, a.t, s'.phase[a.t]);
      WokenSendersAfter(s.phase, a.t, s'.phase[a.t]);
  }

  lemma StepKeepsInv(s: State, a: Action, max: nat, msgSize: nat)
    requires Inv(s, max, msgSize) && Enabled(s, a, msgSize)
    ensures Inv(Next(s, a, msgSize), max, msgSize)
  {
    StepKeepsSlots(s, a, max, msgSize);
    StepKeepsContents(s, a, max, msgSize);
    StepKeepsWaiters(s, a, max, msgSize);
    StepKeepsNoneStranded(s, a, max, msgSize);
  }

  /** Every thread can go on: a sender with a free slot or by waiting, a receiver with a message or by waiting, and whoever has a
      slot in hand with its copy, its link or its return. */
  lemma NeverStuck(s: State, t: Tid, buf: seq<byte>, urgent: bool, size: nat, max: nat, msgSize: nat)
    requires Inv(s, max, msgSize) && t in s.phase && 0 < |buf| <= msgSize
    ensures s.phase[t].Idle? ==>
      && (Enabled(s, SendTake(t, buf, urgent), msgSize) <==> s.core.free != [])
      && (Enabled(s, SendBlock(t, buf, |s.senders|), msgSize) <==> s.core.free == [])
    ensures s.phase[t].SendWoken? ==>
      && (Enabled(s, SendTake(t, s.phase[t].buf, false), msgSize) <==> s.core.free != [])
      && (Enabled(s, SendBlock(t, s.phase[t].buf, |s.senders|), msgSize) && Enabled(s, SendGiveUp(t), msgSize) <==> s.core.free == [])
    ensures s.phase[t].Idle? || s.phase[t].RecvWoken? ==>
      && (Enabled(s, RecvTake(t), msgSize) <==> s.core.queue != [])
      && (Enabled(s, RecvBlock(t, |s.receivers|), msgSize) <==> s.core.queue == [])
    ensures s.phase[t].RecvWoken? ==> (Enabled(s, RecvGiveUp(t), msgSize) <==> s.core.queue == [])
    ensures s.phase[t].SendHolding? ==> Enabled(s, SendCopy(t), msgSize)
    ensures s.phase[t].SendCopied? ==> Enabled(s, SendLink(t), msgSize)
    ensures s.phase[t].RecvHolding? ==> Enabled(s, RecvCopy(t, size), msgSize)
    ensures s.phase[t].RecvCopied? ==> Enabled(s, RecvPut(t), msgSize)
    ensures s.phase[t].SendWaiting? || s.phase[t].RecvWaiting? ==> Enabled(s, Timeout(t), msgSize)
  {
    hide NoneStranded, Waiters;
    assert Intact(s, s.phase[t], msgSize);
    if HasSlot(s.phase[t]) {
      assert Holds(s.phase, t, s.phase[t].slot);
    }
    if s.core.queue != [] {
      assert s.core.queue[0] in s.core.queue;
    }
  }

  /** A thread waits where it was put; one whose time is up leaves that place and returns, and a reset sends all that wait away
      and touches nobody else. */
  lemma WaitsExactly(s: State, a: Action, max: nat, msgSize: nat)
    requires Inv(s, max, msgSize) && Enabled(s, a, msgSize)
    ensures var s' := Next(s, a, msgSize);
      && (a.SendBlock? ==> a.at < |s'.senders| && s'.senders[a.at] == a.t && s'.senders[..a.at] + s'.senders[a.at + 1..] == s.senders)
      && (a.RecvBlock? ==> a.at < |s'.receivers| && s'.receivers[a.at] == a.t && s'.receivers[..a.at] + s'.receivers[a.at + 1..] == s.receivers)
      && (a.Timeout? ==> s' == s.(senders := s'.senders, receivers := s'.receivers, phase := s.phase[a.t := Idle]))
    ensures a.Timeout? ==> forall k :: 0 <= k < |s.senders| && s.senders[k] == a.t ==>
      Next(s, a, msgSize).senders == s.senders[..k] + s.senders[k + 1..]
    ensures a.Timeout? ==> forall k :: 0 <= k < |s.receivers| && s.receivers[k] == a.t ==>
      Next(s, a, msgSize).receivers == s.receivers[..k] + s.receivers[k + 1..]
    ensures a.Reset? ==> var s' := Next(s, a, msgSize);
      && s'.core.queue == [] && s'.senders == [] && s'.receivers == [] && s'.data == s.data && s'.phase.Keys == s.phase.Keys
      && forall u :: u in s.phase ==> s'.phase[u] == if u in s.senders || u in s.receivers then Idle else s.phase[u]
  {
    hide Slots, Contents, NoneStranded;
    match a
    case Timeout(t) =>
      forall k | 0 <= k < |s.senders| && s.senders[k] == t
        ensures Without(s.senders, t) == s.senders[..k] + s.senders[k + 1..]
      {
        DistinctIndexOf(s.senders, k);
      }
      forall k | 0 <= k < |s.receivers| && s.receivers[k] == t
        ensures Without(s.receivers, t) == s.receivers[..k] + s.receivers[k + 1..]
      {
        DistinctIndexOf(s.receivers, k);
      }
    case _ =>
  }

  /** A message that is linked wakes the receiver that has waited longest, a slot that is returned the sender at the front. */
  lemma WakesFirst(s: State, t: Tid, max: nat, msgSize: nat)
    requires Inv(s, max, msgSize) && t in s.phase
    ensures s.phase[t].SendCopied? && s.receivers != [] ==>
      var s' := Next(s, SendLink(t), msgSize); var u := s.receivers[0];
      && u in s'.phase && s'.phase[u] == RecvWoken && [u] + s'.receivers == s.receivers && s'.senders == s.senders
      && forall w :: w in s.phase && w != t && w != u ==> w in s'.phase && s'.phase[w] == s.phase[w]
    ensures s.phase[t].RecvCopied? && s.senders != [] ==>
      var s' := Next(s, RecvPut(t), msgSize); var u := s.senders[0];
      && u in s.phase && s.phase[u].SendWaiting? && u in s'.phase && s'.phase[u] == SendWoken(s.phase[u].buf)
      && [u] + s'.senders == s.senders && s'.receivers == s.receivers
      && forall w :: w in s.phase && w != t && w != u ==> w in s'.phase && s'.phase[w] == s.phase[w]
  {
    hide NoneStranded, Slots, Contents;
    if s.receivers != [] { assert s.receivers[0] in s.receivers; }
    if s.senders != [] { assert s.senders[0] in s.senders; }
  }

  // ---- the queue is a bounded double-ended queue

  /** A slot in someone's hands leaves room in the queue. */
  lemma RoomForHeld(s: State, t: Tid, max: nat, msgSize: nat)
    requires Inv(s, max, msgSize) && t in s.phase && HasSlot(s.phase[t])
    ensures |s.core.queue| < max
  {
    var x := s.phase[t].slot;
    assert Holds(s.phase, t, x) && InHand(s.phase, x);
    InsertMembers(s.core.queue, 0, x);
    Pigeonhole(InsertAt(s.core.queue, 0, x), max);
  }

  /** The messages in the queue. */
  ghost function Abs(s: State): seq<seq<byte>>
    requires InRange(s)
  {
    Messages(s.core.queue, s.data)
  }

  ghost predicate InRange(s: State) {
    forall i :: 0 <= i < |s.core.queue| ==> s.core.queue[i] < |s.data|
  }

  lemma InvInRange(s: State, max: nat, msgSize: nat)
    requires Inv(s, max, msgSize)
    ensures InRange(s) && |Abs(s)| <= max
  {
    forall i | 0 <= i < |s.core.queue|
      ensures s.core.queue[i] < |s.data|
    {
      assert s.core.queue[i] in s.core.queue;
    }
    Pigeonhole(s.core.queue, max);
  }

  lemma LinkRefines(s: State, t: Tid, max: nat, msgSize: nat)
    requires Inv(s, max, msgSize) && Enabled(s, SendLink(t), msgSize) && InRange(s) && InRange(Next(s, SendLink(t), msgSize))
    ensures Deque(Abs(s), Visible(s, SendLink(t), msgSize), max) == Some(Abs(Next(s, SendLink(t), msgSize)))
    ensures s.phase[t].slot < |s.data| && s.phase[t].buf <= s.data[s.phase[t].slot]
  {
    RoomForHeld(s, t, max, msgSize);
    assert Intact(s, s.phase[t], msgSize);
    var s', m := Next(s, SendLink(t), msgSize), s.data[s.phase[t].slot];
    assert Abs(s') == if s.phase[t].urgent then [m] + Abs(s) else Abs(s) + [m];
  }

  lemma CopyRefines(s: State, t: Tid, max: nat, msgSize: nat)
    requires Inv(s, max, msgSize) && Enabled(s, SendCopy(t), msgSize) && InRange(s) && InRange(Next(s, SendCopy(t), msgSize))
    ensures Abs(Next(s, SendCopy(t), msgSize)) == Abs(s)
  {
    var x := s.phase[t].slot;
    assert Holds(s.phase, t, x) && InHand(s.phase, x);
    forall i | 0 <= i < |s.core.queue|
      ensures s.core.queue[i] != x
    {
      assert s.core.queue[i] in s.core.queue;
    }
  }

  lemma TakeRefines(s: State, t: Tid, msgSize: nat)
    requires Enabled(s, RecvTake(t), msgSize) && InRange(s) && InRange(Next(s, RecvTake(t), msgSize))
    ensures Abs(s) != [] && Abs(s)[0] == s.data[s.core.queue[0]]
    ensures Abs(Next(s, RecvTake(t), msgSize)) == Abs(s)[1..]
  {
  }

  /** Each step is its visible event on the bounded double-ended queue of messages. */
  lemma StepRefinesDeque(s: State, a: Action, max: nat, msgSize: nat)
    requires Inv(s, max, msgSize) && Enabled(s, a, msgSize)
    ensures InRange(s) && InRange(Next(s, a, msgSize))
    ensures Deque(Abs(s), Visible(s, a, msgSize), max) == Some(Abs(Next(s, a, msgSize)))
  {
    hide Inv, Messages;
    var s' := Next(s, a, msgSize);
    StepKeepsInv(s, a, max, msgSize);
    InvInRange(s, max, msgSize);
    InvInRange(s', max, msgSize);
    match a
    case SendLink(t) => LinkRefines(s, t, max, msgSize);
    case SendCopy(t) => CopyRefines(s, t, max, msgSize);
    case RecvTake(t) => TakeRefines(s, t, msgSize);
    case Reset => assert Abs(s') == [];
    case _ => assert s'.core.queue == s.core.queue && s'.data == s.data;
  }

  // ---- whole runs

  /** The initial state: everything free, nobody waiting. */
  ghost predicate Init(s: State, max: nat, msgSize: nat) {
    && s.core.queue == [] && s.core.entry == 0 && s.senders == [] && s.receivers == []
    && Distinct(s.core.free) && (forall x: Slot :: x in s.core.free <==> x < max)
    && |s.data| == max && (forall i :: 0 <= i < max ==> |s.data[i]| == msgSize)
    && (forall t :: t in s.phase ==> s.phase[t] == Idle)
  }

  lemma InitInv(s: State, max: nat, msgSize: nat)
    requires Init(s, max, msgSize)
    ensures Inv(s, max, msgSize) && InRange(s) && Abs(s) == []
  {
    assert forall t: Tid, x: Slot :: !Holds(s.phase, t, x);
  }

  ghost predicate IsRun(s: State, steps: seq<Action>, msgSize: nat)
    decreases |steps|
  {
    steps != [] ==> Enabled(s, steps[0], msgSize) && IsRun(Next(s, steps[0], msgSize), steps[1..], msgSize)
  }

  ghost function After(s: State, steps: seq<Action>, msgSize: nat): State
    requires IsRun(s, steps, msgSize)
    decreases |steps|
  {
    if steps == [] then s else After(Next(s, steps[0], msgSize), steps[1..], msgSize)
  }

  /** What an observer sees of a run. */
  ghost function Trace(s: State, steps: seq<Action>, msgSize: nat): seq<Event>
    requires IsRun(s, steps, msgSize)
    decreases |steps|
  {
    if steps == [] then [] else [Visible(s, steps[0], msgSize)] + Trace(Next(s, steps[0], msgSize), steps[1..], msgSize)
  }

  /** The double-ended queue that accepts a trace, if it does. */
  function Play(d: seq<seq<byte>>, trace: seq<Event>, capacity: nat): Option<seq<seq<byte>>>
    decreases |trace|
  {
    if trace == [] then Some(d)
    else
      var r := Deque(d, trace[0], capacity);
      if r.None? then None else Play(r.value, trace[1..], capacity)
  }

  lemma {:induction false} RunRefinesDeque(s: State, steps: seq<Action>, max: nat, msgSize: nat)
    requires Inv(s, max, msgSize) && IsRun(s, steps, msgSize)
    ensures InRange(s) && Inv(After(s, steps, msgSize), max, msgSize) && InRange(After(s, steps, msgSize))
    ensures Play(Abs(s), Trace(s, steps, msgSize), max) == Some(Abs(After(s, steps, msgSize)))
    decreases |steps|
  {
    InvInRange(s, max, msgSize);
    if steps != [] {
      StepKeepsInv(s, steps[0], max, msgSize);
      StepRefinesDeque(s, steps[0], max, msgSize);
      RunRefinesDeque(Next(s, steps[0], msgSize), steps[1..], max, msgSize);
      var tr := Trace(s, steps, msgSize);
      assert tr[0] == Visible(s, steps[0], msgSize) && tr[1..] == Trace(Next(s, steps[0], msgSize), steps[1..], msgSize);
    }
  }

  /** In every interleaving from the initial state: no slot is lost or shared, no copy is torn, nobody is stranded,
      and what is sent and received is what a bounded double-ended queue would have accepted and delivered. */
  lemma EveryRun(s: State, steps: seq<Action>, max: nat, msgSize: nat)
    requires Init(s, max, msgSize) && IsRun(s, steps, msgSize)
    ensures Inv(After(s, steps, msgSize), max, msgSize) && InRange(After(s, steps, msgSize))
    ensures Play([], Trace(s, steps, msgSize), max) == Some(Abs(After(s, steps, msgSize)))
  {
    InitInv(s, max, msgSize);
    RunRefinesDeque(s, steps, max, msgSize);
  }

  /** What a receiver copies out is the front of the message it took, however long the copy was delayed. */
  lemma ReceivedIntact(s: State, t: Tid, size: nat, max: nat, msgSize: nat)
    requires Inv(s, max, msgSize) && Enabled(s, RecvCopy(t, size), msgSize)
    ensures Next(s, RecvCopy(t, size), msgSize).phase[t].got == s.phase[t].msg[..Min(size, msgSize)]
  {
    assert Intact(s, s.phase[t], msgSize);
  }
}
