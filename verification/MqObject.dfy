// The message queue object in the hands of many threads: whatever the interleaving, its
// regions and copies do to the object what the steps of the protocol do to its state, so
// that every law of the protocol is one of the object. The protocol state stands for the
// local variables of the threads: the slot in hand, the buffer, the size.
module MqObject {
  import opened Words
  import opened Chains
  import opened MqSpec
  import opened MqLaws
  import opened MsgQueue

  /** Slots copied into for sending at the end, which are a list of their own until they are linked. */
  ghost predicate Terminated(next: seq<int>, phase: map<Tid, Phase>) {
    forall t :: t in phase && phase[t].SendCopied? && !phase[t].urgent ==> phase[t].slot < |next| && next[phase[t].slot] == NIL
  }

  /** The object is what state s says. */
  ghost predicate Serves(q: MessageQueue, s: State)
    reads q, q.next, q.data
  {
    q.Valid() && q.core == s.core && q.data[..] == s.data && Terminated(q.next[..], s.phase)
  }

  /** The links of slots that are neither queued nor free are the same, but for those of msg. */
  ghost predicate SameElsewhere(next: seq<int>, next': seq<int>, c: Core, msg: int) {
    |next'| == |next| && forall x: nat :: x < |next| && x != msg && Neither(c, x) ==> next'[x] == next[x]
  }

  /** A new object is what the initial state says. */
  lemma NewServes(q: MessageQueue, s: State)
    requires q.Valid() && Init(s, q.next.Length, q.msgSize) && q.core == s.core && q.data[..] == s.data
    ensures Serves(q, s) && Inv(s, q.next.Length, q.msgSize)
  {
    InitInv(s, q.next.Length, q.msgSize);
  }

  lemma InHandNeither(s: State, t: Tid, max: nat)
    requires Slots(s.core, s.phase, max) && t in s.phase && HasSlot(s.phase[t])
    ensures s.phase[t].slot < max && Neither(s.core, s.phase[t].slot)
  {
    assert Holds(s.phase, t, s.phase[t].slot) && InHand(s.phase, s.phase[t].slot);
  }

  lemma HandsApart(s: State, t: Tid, u: Tid, max: nat)
    requires Slots(s.core, s.phase, max) && t in s.phase && u in s.phase && t != u
    requires HasSlot(s.phase[t]) && HasSlot(s.phase[u])
    ensures s.phase[t].slot != s.phase[u].slot
  {
    assert Holds(s.phase, t, s.phase[t].slot) && Holds(s.phase, u, s.phase[u].slot);
  }

  /** Whoever acts keeps to its own slot, so a slot that somebody else has terminated stays so. */
  lemma StillTerminated(s: State, a: Action, next: seq<int>, next': seq<int>, max: nat, msgSize: nat)
    requires Inv(s, max, msgSize) && Enabled(s, a, msgSize) && |next| == max && Terminated(next, s.phase)
    requires !a.Reset? && SameElsewhere(next, next', s.core, if HasSlot(s.phase[a.t]) then s.phase[a.t].slot else NIL)
    requires a.SendCopy? && !s.phase[a.t].urgent ==> s.phase[a.t].slot < max && next'[s.phase[a.t].slot] == NIL
    ensures Terminated(next', Next(s, a, msgSize).phase)
  {
    hide Slots, Contents, NoneStranded;
    var s' := Next(s, a, msgSize);
    forall u | u in s'.phase && s'.phase[u].SendCopied? && !s'.phase[u].urgent
      ensures s'.phase[u].slot < max && next'[s'.phase[u].slot] == NIL
    {
      if u != a.t {
        assert s'.phase[u] == s.phase[u];
        InHandNeither(s, u, max);
        if HasSlot(s.phase[a.t]) { HandsApart(s, a.t, u, max); }
      }
    }
  }

  /** The same for everything that moves no slot, or takes one from the queue or the free list. */
  lemma UntouchedTerminated(s: State, a: Action, next: seq<int>, max: nat, msgSize: nat)
    requires Inv(s, max, msgSize) && Enabled(s, a, msgSize) && |next| == max && Terminated(next, s.phase)
    requires a.SendCopy? ==> s.phase[a.t].urgent
    ensures Terminated(next, Next(s, a, msgSize).phase)
  {
    hide Inv;
  }

  /** The first region of a send: a slot, or none. */
  method TakeToSend(q: MessageQueue, s: State, a: Action) returns (slot: int)
    requires Serves(q, s) && Inv(s, q.next.Length, q.msgSize) && Enabled(s, a, q.msgSize)
    requires a.SendTake? || a.SendBlock? || a.SendGiveUp?
    modifies q
    ensures Serves(q, Next(s, a, q.msgSize))
    ensures slot == if a.SendTake? then Next(s, a, q.msgSize).phase[a.t].slot else NIL
  {
    hide Inv, Terminated, Chain;
    slot := q.TakeFreeSlot();
    UntouchedTerminated(s, a, q.next[..], q.next.Length, q.msgSize);
  }

  method CopyToSend(q: MessageQueue, s: State, t: Tid)
    requires Serves(q, s) && Inv(s, q.next.Length, q.msgSize) && Enabled(s, SendCopy(t), q.msgSize)
    modifies q.next, q.data
    ensures Serves(q, Next(s, SendCopy(t), q.msgSize))
  {
    InHandNeither(s, t, q.next.Length);
    hide Slots, NoneStranded, Waiters, Terminated, Chain;
    var p := s.phase[t];
    ghost var next := q.next[..];
    if p.urgent {
      q.CopyInUrgent(p.slot, p.buf);
      UntouchedTerminated(s, SendCopy(t), next, q.next.Length, q.msgSize);
    } else {
      q.CopyIn(p.slot, p.buf);
      StillTerminated(s, SendCopy(t), next, q.next[..], q.next.Length, q.msgSize);
    }
  }

  method LinkToSend(q: MessageQueue, s: State, t: Tid)
    requires Serves(q, s) && Inv(s, q.next.Length, q.msgSize) && Enabled(s, SendLink(t), q.msgSize)
    modifies q, q.next
    ensures Serves(q, Next(s, SendLink(t), q.msgSize))
  {
    InHandNeither(s, t, q.next.Length);
    hide Inv, Chain;
    var p := s.phase[t];
    ghost var next := q.next[..];
    if p.urgent {
      q.LinkUrgent(p.slot);
    } else {
      q.Link(p.slot);
    }
    hide Terminated;
    StillTerminated(s, SendLink(t), next, q.next[..], q.next.Length, q.msgSize);
  }

  /** The first region of a receive, behind its waiting loop. */
  method TakeToReceive(q: MessageQueue, s: State, t: Tid) returns (slot: int)
    requires Serves(q, s) && Inv(s, q.next.Length, q.msgSize) && Enabled(s, RecvTake(t), q.msgSize)
    modifies q
    ensures Serves(q, Next(s, RecvTake(t), q.msgSize)) && slot == Next(s, RecvTake(t), q.msgSize).phase[t].slot
  {
    hide Inv, Terminated, Chain;
    slot := q.TakeHeadSlot();
    UntouchedTerminated(s, RecvTake(t), q.next[..], q.next.Length, q.msgSize);
  }

  method CopyToReceive(q: MessageQueue, s: State, t: Tid, size: nat) returns (bytes: seq<byte>)
    requires Serves(q, s) && Inv(s, q.next.Length, q.msgSize) && Enabled(s, RecvCopy(t, size), q.msgSize)
    ensures Serves(q, Next(s, RecvCopy(t, size), q.msgSize)) && bytes == Next(s, RecvCopy(t, size), q.msgSize).phase[t].got
  {
    InHandNeither(s, t, q.next.Length);
    hide Slots, NoneStranded, Waiters, Terminated, Chain;
    bytes := q.CopyOut(s.phase[t].slot, size);
    UntouchedTerminated(s, RecvCopy(t, size), q.next[..], q.next.Length, q.msgSize);
  }

  method PutBack(q: MessageQueue, s: State, t: Tid)
    requires Serves(q, s) && Inv(s, q.next.Length, q.msgSize) && Enabled(s, RecvPut(t), q.msgSize)
    modifies q, q.next
    ensures Serves(q, Next(s, RecvPut(t), q.msgSize))
  {
    InHandNeither(s, t, q.next.Length);
    hide Inv, Terminated, Chain;
    ghost var next := q.next[..];
    q.PutFreeSlot(s.phase[t].slot);
    StillTerminated(s, RecvPut(t), next, q.next[..], q.next.Length, q.msgSize);
  }

  method ResetAll(q: MessageQueue, s: State)
    requires Serves(q, s) && Inv(s, q.next.Length, q.msgSize)
    modifies q, q.next
    ensures Serves(q, Next(s, Action.Reset, q.msgSize))
  {
    ghost var s' := Next(s, Action.Reset, q.msgSize);
    forall u | u in s'.phase && s'.phase[u].SendCopied?
      ensures s'.phase[u] == s.phase[u] && s.phase[u].slot < q.next.Length && Neither(s.core, s.phase[u].slot)
    {
      InHandNeither(s, u, q.next.Length);
    }
    hide Inv, Chain;
    q.Reset();
  }

  /** One step of one thread, on the object. slot is the slot it comes to hold, or RT_NULL; bytes is what it copies out. */
  method Step(q: MessageQueue, s: State, a: Action) returns (slot: int, bytes: seq<byte>)
    requires Serves(q, s) && Inv(s, q.next.Length, q.msgSize) && Enabled(s, a, q.msgSize)
    modifies q, q.next, q.data
    ensures Serves(q, Next(s, a, q.msgSize)) && Inv(Next(s, a, q.msgSize), q.next.Length, q.msgSize)
    ensures a.SendTake? || a.RecvTake? ==> slot == Next(s, a, q.msgSize).phase[a.t].slot
    ensures a.SendBlock? || a.SendGiveUp? ==> slot == NIL
    ensures a.RecvCopy? ==> bytes == Next(s, a, q.msgSize).phase[a.t].got
  {
    StepKeepsInv(s, a, q.next.Length, q.msgSize);
    hide Inv, Serves;
    slot, bytes := NIL, [];
    match a {
      case SendCopy(t) => CopyToSend(q, s, t);
      case SendLink(t) => LinkToSend(q, s, t);
      case RecvTake(t) => slot := TakeToReceive(q, s, t);
      case RecvCopy(t, size) => bytes := CopyToReceive(q, s, t, size);
      case RecvPut(t) => PutBack(q, s, t);
      case Reset => ResetAll(q, s);
      case SendTake(_, _, _) => slot := TakeToSend(q, s, a);
      case SendBlock(_, _, _) => slot := TakeToSend(q, s, a);
      case SendGiveUp(_) => slot := TakeToSend(q, s, a);
      case _ => WaitAside(q, s, a);
    }
  }

  /** A receiver that waits or gives up, and a timeout, do not touch the object. */
  lemma WaitAside(q: MessageQueue, s: State, a: Action)
    requires Serves(q, s) && Inv(s, q.next.Length, q.msgSize) && Enabled(s, a, q.msgSize)
    requires a.RecvBlock? || a.RecvGiveUp? || a.Timeout?
    ensures Serves(q, Next(s, a, q.msgSize))
  {
    UntouchedTerminated(s, a, q.next[..], q.next.Length, q.msgSize);
  }

  /** Any interleaving, carried out on the object, leads where the protocol leads. */
  method Interleave(q: MessageQueue, s: State, steps: seq<Action>)
    requires Serves(q, s) && Inv(s, q.next.Length, q.msgSize) && IsRun(s, steps, q.msgSize)
    modifies q, q.next, q.data
    ensures Serves(q, After(s, steps, q.msgSize)) && Inv(After(s, steps, q.msgSize), q.next.Length, q.msgSize)
  {
    hide Inv, Serves, Next, Enabled;
    var s', k := s, 0;
    while k < |steps|
      invariant k <= |steps| && Serves(q, s') && Inv(s', q.next.Length, q.msgSize)
      invariant IsRun(s', steps[k..], q.msgSize) && After(s', steps[k..], q.msgSize) == After(s, steps, q.msgSize)
    {
      assert steps[k..][0] == steps[k] && steps[k..][1..] == steps[k + 1..];
      var _, _ := Step(q, s', steps[k]);
      s' := Next(s', steps[k], q.msgSize);
      k := k + 1;
    }
  }
}
