// What senders and receivers see of a run is what a post office would have let them
// see that keeps whole letters in a bounded double-ended queue.
module MqDelivery {
  import opened Seqs
  import opened Words
  import opened MqSpec
  import opened MqLaws

  type Bytes = seq<byte>

  datatype Letter = Letter(buf: Bytes, urgent: bool)

  datatype Office = Office(queue: seq<Bytes>, asked: map<Tid, Letter>, held: map<Tid, Bytes>)

  datatype Event =
    | Ask(t: Tid, letter: Letter)   // a thread calls rt_mq_send, rt_mq_send_wait or rt_mq_urgent
    | Post(t: Tid)                  // what it asks for is queued
    | Collect(t: Tid)               // a receiver takes the first letter
    | Hand(t: Tid, size: nat, got: Bytes)   // and returns, asked for size bytes, with these
    | Drop                          // rt_mq_control resets the queue
    | Quiet

  /** One is the other, cut short: a receiver gets what was sent up to the size it asks for, and beyond the end of the letter
      whatever the slot held before. */
  predicate Agrees(got: Bytes, sent: Bytes) {
    got <= sent || sent <= got
  }

  /** What the office is after an event, if the event is possible. A letter is queued once for one call, and handed over once
      it is collected, before its receiver collects another. */
  function Accepts(o: Office, e: Event, capacity: nat, msgSize: nat): Option<Office> {
    match e
    case Ask(t, letter) => if 0 < |letter.buf| <= msgSize then Some(o.(asked := o.asked[t := letter])) else None
    case Post(t) =>
      if t !in o.asked || |o.queue| >= capacity then None
      else if o.asked[t].urgent then Some(o.(queue := [o.asked[t].buf] + o.queue, asked := o.asked - {t}))
      else Some(o.(queue := o.queue + [o.asked[t].buf], asked := o.asked - {t}))
    case Collect(t) => if o.queue == [] || t in o.held then None else Some(o.(queue := o.queue[1..], held := o.held[t := o.queue[0]]))
    case Hand(t, size, got) =>
      if t in o.held && |got| == Min(size, msgSize) && Agrees(got, o.held[t]) then Some(o.(held := o.held - {t})) else None
    case Drop => Some(o.(queue := []))
    case Quiet => Some(o)
  }

  /** What the callers see of a step. */
  function Seen(s: State, a: Action, msgSize: nat): Event
    requires MqSpec.Enabled(s, a, msgSize)
  {
    match a
    case SendTake(t, buf, urgent) => if s.phase[t].Idle? then Ask(t, Letter(buf, urgent)) else Quiet
    case SendBlock(t, buf, _) => if s.phase[t].Idle? then Ask(t, Letter(buf, false)) else Quiet
    case SendLink(t) => Post(t)
    case RecvTake(t) => Collect(t)
    case RecvPut(t) => Hand(t, s.phase[t].size, s.phase[t].got)
    case Reset => Event.Drop
    case _ => Quiet
  }

  // ---- how the office stands for the queue

  /** Each queued letter lies at the front of its slot. */
  ghost predicate Lying(slots: seq<Slot>, data: seq<Bytes>, queue: seq<Bytes>) {
    |queue| == |slots| && forall i :: 0 <= i < |queue| ==> slots[i] < |data| && queue[i] <= data[slots[i]]
  }

  lemma NothingLies(data: seq<Bytes>)
    ensures Lying([], data, [])
  {
  }

  /** What a thread sends is what it has asked for; what it has taken begins with the letter it holds. */
  ghost predicate Busy(p: Phase, t: Tid, o: Office) {
    && (p.SendWaiting? || p.SendWoken? ==> t in o.asked && o.asked[t] == Letter(p.buf, false))
    && (p.SendHolding? || p.SendCopied? ==> t in o.asked && o.asked[t] == Letter(p.buf, p.urgent))
    && (p.RecvHolding? || p.RecvCopied? ==> t in o.held && o.held[t] <= p.msg)
  }

  /** Who holds a letter has a slot in hand. */
  ghost predicate Reading(phase: map<Tid, Phase>, held: map<Tid, Bytes>) {
    forall t :: t in held ==> t in phase && (phase[t].RecvHolding? || phase[t].RecvCopied?)
  }

  ghost predicate Stands(s: State, o: Office) {
    Lying(s.core.queue, s.data, o.queue) && Reading(s.phase, o.held) && forall t :: t in s.phase ==> Busy(s.phase[t], t, o)
  }

  lemma PrefixesAgree(a: Bytes, b: Bytes, c: Bytes)
    requires a <= c && b <= c
    ensures Agrees(a, b)
  {
  }

  /** Who is woken keeps what it asked for. */
  lemma WokenBusy(s: State, o: Office, t: Tid)
    requires Waiters(s) && (forall u :: u in s.phase && u != t ==> Busy(s.phase[u], u, o)) && t in s.phase && s.phase[t].Idle?
    requires Reading(s.phase, o.held)
    ensures WakeReceiver(s).core == WakeSender(s).core == s.core && WakeReceiver(s).data == WakeSender(s).data == s.data
    ensures Reading(WakeReceiver(s).phase, o.held) && Reading(WakeSender(s).phase, o.held)
    ensures forall u :: u in WakeReceiver(s).phase ==> Busy(WakeReceiver(s).phase[u], u, o)
    ensures forall u :: u in WakeSender(s).phase ==> Busy(WakeSender(s).phase[u], u, o)
  {
    if s.senders != [] {
      assert s.senders[0] in s.senders;
    }
  }

  /** The letter goes where its slot goes. */
  lemma LinkQueued(c: Core, data: seq<Bytes>, queue: seq<Bytes>, x: Slot, m: Bytes)
    requires Lying(c.queue, data, queue) && x < |data| && m <= data[x]
    ensures Lying(LinkTail(c, x).queue, data, queue + [m]) && Lying(LinkHead(c, x).queue, data, [m] + queue)
  {
  }

  lemma Sending(s: State, t: Tid, o: Office, max: nat, msgSize: nat)
    requires Inv(s, max, msgSize) && Stands(s, o) && t in s.phase && s.phase[t].SendCopied?
    ensures Waiters(s) && t in o.asked && o.asked[t] == Letter(s.phase[t].buf, s.phase[t].urgent)
    ensures s.phase[t].slot < |s.data| && s.phase[t].buf <= s.data[s.phase[t].slot]
  {
    hide Slots, NoneStranded, Waiters, Lying;
    assert Busy(s.phase[t], t, o) && Intact(s, s.phase[t], msgSize);
  }

  lemma Receiving(s: State, t: Tid, o: Office, max: nat, msgSize: nat)
    requires Inv(s, max, msgSize) && Stands(s, o) && t in s.phase && s.phase[t].RecvCopied?
    ensures Waiters(s) && t in o.held && o.held[t] <= s.phase[t].msg
    ensures s.phase[t].got <= s.phase[t].msg && |s.phase[t].got| == Min(s.phase[t].size, msgSize)
  {
    hide Slots, NoneStranded, Waiters, Lying;
    assert Busy(s.phase[t], t, o) && Intact(s, s.phase[t], msgSize);
  }

  lemma QueueLength(slots: seq<Slot>, data: seq<Bytes>, queue: seq<Bytes>)
    requires Lying(slots, data, queue)
    ensures |queue| == |slots|
  {
  }

  lemma IdleWaiters(s: State, t: Tid, c: Core)
    requires Waiters(s) && t in s.phase && HasSlot(s.phase[t])
    ensures Waiters(s.(core := c, phase := s.phase[t := Idle]))
  {
    hide Distinct;
  }

  /** Who is done needs nothing more of the office, and the others see no difference. */
  lemma BackToIdle(s: State, t: Tid, o: Office, o': Office)
    requires t in s.phase && Stands(s, o)
    requires (o' == o.(queue := o'.queue, asked := o.asked - {t}) && s.phase[t].SendCopied?) || o' == o.(held := o.held - {t})
    ensures Reading(s.phase[t := Idle], o'.held)
    ensures forall u :: u in s.phase && u != t ==> Busy(s.phase[u], u, o')
  {
    hide Lying;
  }

  lemma DoneStands(s: State, t: Tid, c: Core, o: Office, o': Office)
    requires Waiters(s) && t in s.phase && HasSlot(s.phase[t]) && Stands(s, o) && Lying(c.queue, s.data, o'.queue)
    requires (o' == o.(queue := o'.queue, asked := o.asked - {t}) && s.phase[t].SendCopied?) || o' == o.(held := o.held - {t})
    ensures var mid := s.(core := c, phase := s.phase[t := Idle]);
      Stands(WakeReceiver(mid), o') && Stands(WakeSender(mid), o')
  {
    IdleWaiters(s, t, c);
    BackToIdle(s, t, o, o');
    hide Lying, Busy, Reading, Waiters, WakeReceiver, WakeSender;
    WokenBusy(s.(core := c, phase := s.phase[t := Idle]), o', t);
  }

  lemma LinkStands(s: State, t: Tid, o: Office, max: nat, msgSize: nat)
    requires Inv(s, max, msgSize) && MqSpec.Enabled(s, SendLink(t), msgSize) && Stands(s, o)
    ensures var r := Accepts(o, Post(t), max, msgSize); r.Some? && Stands(Next(s, SendLink(t), msgSize), r.value)
  {
    RoomForHeld(s, t, max, msgSize);
    Sending(s, t, o, max, msgSize);
    hide Inv, Busy, Reading, Waiters, WakeReceiver, Lying;
    var p := s.phase[t];
    LinkQueued(s.core, s.data, o.queue, p.slot, p.buf);
    QueueLength(s.core.queue, s.data, o.queue);
    hide Stands;
    var c := if p.urgent then LinkHead(s.core, p.slot) else LinkTail(s.core, p.slot);
    DoneStands(s, t, c, o, Accepts(o, Post(t), max, msgSize).value);
  }

  lemma PutStands(s: State, t: Tid, o: Office, max: nat, msgSize: nat)
    requires Inv(s, max, msgSize) && MqSpec.Enabled(s, RecvPut(t), msgSize) && Stands(s, o)
    ensures var r := Accepts(o, Hand(t, s.phase[t].size, s.phase[t].got), max, msgSize);
      r.Some? && Stands(Next(s, RecvPut(t), msgSize), r.value)
  {
    Receiving(s, t, o, max, msgSize);
    hide Inv, Busy, Reading, Waiters, WakeSender, Lying;
    var p := s.phase[t];
    PrefixesAgree(p.got, o.held[t], p.msg);
    assert Lying(PutFree(s.core, p.slot).queue, s.data, o.queue);
    hide Stands, Agrees;
    DoneStands(s, t, PutFree(s.core, p.slot), o, o.(held := o.held - {t}));
  }

  lemma CopyStands(s: State, t: Tid, o: Office, max: nat, msgSize: nat)
    requires Inv(s, max, msgSize) && MqSpec.Enabled(s, SendCopy(t), msgSize) && Stands(s, o)
    ensures Stands(Next(s, SendCopy(t), msgSize), o)
  {
    hide NoneStranded, Contents, Waiters;
    var x := s.phase[t].slot;
    assert Holds(s.phase, t, x) && InHand(s.phase, x);
    var s' := Next(s, SendCopy(t), msgSize);
    forall i | 0 <= i < |o.queue|
      ensures s'.core.queue[i] < |s'.data| && o.queue[i] <= s'.data[s'.core.queue[i]]
    {
      assert s.core.queue[i] in s.core.queue;
    }
  }

  lemma TakeStands(s: State, t: Tid, o: Office, max: nat, msgSize: nat)
    requires MqSpec.Enabled(s, RecvTake(t), msgSize) && Stands(s, o)
    ensures var r := Accepts(o, Collect(t), max, msgSize); r.Some? && Stands(Next(s, RecvTake(t), msgSize), r.value)
  {
  }

  /** Starting to send, with a slot or without. */
  lemma AskStands(s: State, a: Action, o: Office, max: nat, msgSize: nat)
    requires MqSpec.Enabled(s, a, msgSize) && Stands(s, o) && (a.SendTake? || a.SendBlock?)
    requires s.phase[a.t].SendWoken? ==> 0 < |s.phase[a.t].buf| <= msgSize
    ensures var r := Accepts(o, Seen(s, a, msgSize), max, msgSize); r.Some? && Stands(Next(s, a, msgSize), r.value)
  {
    hide InsertAt;
    assert Busy(s.phase[a.t], a.t, o);
  }

  lemma RestStands(s: State, a: Action, o: Office, max: nat, msgSize: nat)
    requires MqSpec.Enabled(s, a, msgSize) && Stands(s, o)
    requires a.SendGiveUp? || a.RecvBlock? || a.RecvCopy? || a.RecvGiveUp? || a.Timeout? || a.Reset?
    ensures var r := Accepts(o, Seen(s, a, msgSize), max, msgSize); r.Some? && Stands(Next(s, a, msgSize), r.value)
  {
    NothingLies(s.data);
    hide InsertAt, Without, Lying;
  }

  /** Every step is one the office accepts, and leaves an office that stands for the queue again. */
  lemma StepStands(s: State, a: Action, o: Office, max: nat, msgSize: nat)
    requires Inv(s, max, msgSize) && MqSpec.Enabled(s, a, msgSize) && Stands(s, o)
    ensures var r := Accepts(o, Seen(s, a, msgSize), max, msgSize); r.Some? && Stands(Next(s, a, msgSize), r.value)
  {
    hide Slots, Waiters, NoneStranded, Agrees, Stands, Next;
    match a
    case SendLink(t) => LinkStands(s, t, o, max, msgSize);
    case SendCopy(t) => CopyStands(s, t, o, max, msgSize);
    case RecvTake(t) => TakeStands(s, t, o, max, msgSize);
    case RecvPut(t) => PutStands(s, t, o, max, msgSize);
    case SendTake(t, _, _) =>
      assert Intact(s, s.phase[t], msgSize);
      AskStands(s, a, o, max, msgSize);
    case SendBlock(t, _, _) =>
      assert Intact(s, s.phase[t], msgSize);
      AskStands(s, a, o, max, msgSize);
    case _ => RestStands(s, a, o, max, msgSize);
  }

  // ---- whole runs

  /** What the callers see of a run. */
  ghost function Log(s: State, steps: seq<Action>, msgSize: nat): seq<Event>
    requires IsRun(s, steps, msgSize)
    decreases |steps|
  {
    if steps == [] then [] else [Seen(s, steps[0], msgSize)] + Log(Next(s, steps[0], msgSize), steps[1..], msgSize)
  }

  function Replay(o: Office, log: seq<Event>, capacity: nat, msgSize: nat): Option<Office>
    decreases |log|
  {
    if log == [] then Some(o)
    else
      var r := Accepts(o, log[0], capacity, msgSize);
      if r.None? then None else Replay(r.value, log[1..], capacity, msgSize)
  }

  lemma {:induction false} RunStands(s: State, steps: seq<Action>, o: Office, max: nat, msgSize: nat)
    requires Inv(s, max, msgSize) && IsRun(s, steps, msgSize) && Stands(s, o)
    ensures var r := Replay(o, Log(s, steps, msgSize), max, msgSize);
      r.Some? && Stands(After(s, steps, msgSize), r.value)
    decreases |steps|
  {
    hide Inv, Stands, Next, MqSpec.Enabled, Accepts, Seen;
    if steps != [] {
      var a, log := steps[0], Log(s, steps, msgSize);
      StepStands(s, a, o, max, msgSize);
      StepKeepsInv(s, a, max, msgSize);
      RunStands(Next(s, a, msgSize), steps[1..], Accepts(o, Seen(s, a, msgSize), max, msgSize).value, max, msgSize);
      assert log[0] == Seen(s, a, msgSize) && log[1..] == Log(Next(s, a, msgSize), steps[1..], msgSize);
    }
  }

  /** In every interleaving of senders, receivers, timeouts and resets each receiver returns with the letter that a sender
      passed and that was first in the queue when it was its turn. */
  lemma EveryRun(s: State, steps: seq<Action>, max: nat, msgSize: nat)
    requires Init(s, max, msgSize) && IsRun(s, steps, msgSize)
    ensures var r := Replay(Office([], map[], map[]), Log(s, steps, msgSize), max, msgSize);
      r.Some? && Stands(After(s, steps, msgSize), r.value)
  {
    InitInv(s, max, msgSize);
    RunStands(s, steps, Office([], map[], map[]), max, msgSize);
  }

  // ---- first in, first out

  /** The letters queued and the letters collected in a log, in order. */
  function Posted(o: Office, log: seq<Event>, capacity: nat, msgSize: nat): seq<Bytes>
    requires Replay(o, log, capacity, msgSize).Some?
    decreases |log|
  {
    if log == [] then [] else
      var rest := Posted(Accepts(o, log[0], capacity, msgSize).value, log[1..], capacity, msgSize);
      if log[0].Post? then [o.asked[log[0].t].buf] + rest else rest
  }

  function Collected(o: Office, log: seq<Event>, capacity: nat, msgSize: nat): seq<Bytes>
    requires Replay(o, log, capacity, msgSize).Some?
    decreases |log|
  {
    if log == [] then [] else
      var rest := Collected(Accepts(o, log[0], capacity, msgSize).value, log[1..], capacity, msgSize);
      if log[0].Collect? then [o.queue[0]] + rest else rest
  }

  /** No resets and no urgent letters. */
  predicate Plain(e: Event) {
    !e.Drop? && (e.Ask? ==> !e.letter.urgent)
  }

  lemma PlainAccepted(o: Office, e: Event, capacity: nat, msgSize: nat)
    requires Accepts(o, e, capacity, msgSize).Some? && Plain(e) && forall t :: t in o.asked ==> !o.asked[t].urgent
    ensures var o' := Accepts(o, e, capacity, msgSize).value;
      && (forall t :: t in o'.asked ==> !o'.asked[t].urgent)
      && (e.Collect? ==> o.queue != [] && o'.queue == o.queue[1..])
      && (e.Post? ==> e.t in o.asked && o'.queue == o.queue + [o.asked[e.t].buf])
      && (!e.Collect? && !e.Post? ==> o'.queue == o.queue)
  {
  }

  /** Without these, what is collected, then what is left, is what was there, then what was posted, letter by letter. */
  lemma {:induction false} FirstInFirstOut(o: Office, log: seq<Event>, capacity: nat, msgSize: nat)
    requires Replay(o, log, capacity, msgSize).Some?
    requires (forall t :: t in o.asked ==> !o.asked[t].urgent) && forall k :: 0 <= k < |log| ==> Plain(log[k])
    ensures Collected(o, log, capacity, msgSize) + Replay(o, log, capacity, msgSize).value.queue
         == o.queue + Posted(o, log, capacity, msgSize)
    decreases |log|
  {
    if log != [] {
      var e := log[0];
      assert Plain(e);
      var o' := Accepts(o, e, capacity, msgSize).value;
      PlainAccepted(o, e, capacity, msgSize);
      hide Accepts;
      FirstInFirstOut(o', log[1..], capacity, msgSize);
      var c, q, p := Collected(o', log[1..], capacity, msgSize), Replay(o, log, capacity, msgSize).value.queue, Posted(o', log[1..], capacity, msgSize);
      assert c + q == o'.queue + p;
      if e.Collect? {
        assert [o.queue[0]] + c + q == [o.queue[0]] + (c + q) == o.queue + p;
      } else if e.Post? {
        assert o.queue + [o.asked[e.t].buf] + p == o.queue + ([o.asked[e.t].buf] + p);
      }
    }
  }
}
