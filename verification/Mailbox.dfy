// The mailbox of ipc.c: a ring of words with suspended senders and receivers.
module Mailbox {
  import opened Waiting

  type Mail = int

  // ---- the object

  class MailBox {
    const pool: array<Mail>   // msg_pool
    var entry: nat
    var inOffset: nat
    var outOffset: nat

    /** The position of the i-th queued mail; for i == entry, that of the next one. */
    function At(i: nat): int
      reads this
    {
      if outOffset + i < pool.Length then outOffset + i else outOffset + i - pool.Length
    }

    ghost predicate Valid()
      reads this
    {
      && entry <= pool.Length
      && (pool.Length == 0 ==> inOffset == outOffset == 0)
      && (pool.Length > 0 ==> inOffset < pool.Length && outOffset < pool.Length && inOffset == At(entry))
    }

    /** The mails in the box, oldest first. */
    ghost function Mails(): seq<Mail>
      requires Valid()
      reads this, pool
    {
      seq(entry, i requires Valid() && 0 <= i < entry reads this, pool => pool[At(i)])
    }

    /** rt_mb_init */
    constructor (size: nat)
      ensures Valid() && Mails() == [] && pool.Length == size && fresh(pool)
    {
      pool := new Mail[size];
      entry, inOffset, outOffset := 0, 0, 0;
    }

    /** The part of rt_mb_send_wait behind the waiting loop. */
    method Put(value: Mail)
      requires Valid() && entry < pool.Length
      modifies this, pool
      ensures Valid() && Mails() == old(Mails()) + [value]
    {
      pool[inOffset] := value;
      inOffset := inOffset + 1;
      if inOffset >= pool.Length {
        inOffset := 0;
      }
      entry := entry + 1;
    }

    /** The part of rt_mb_recv behind the waiting loop. */
    method Get() returns (value: Mail)
      requires Valid() && entry > 0
      modifies this
      ensures Valid() && [value] + Mails() == old(Mails())
    {
      value := pool[outOffset];
      outOffset := outOffset + 1;
      if outOffset >= pool.Length {
        outOffset := 0;
      }
      entry := entry - 1;
    }

    /** rt_mb_control(RT_IPC_CMD_RESET), as far as the ring goes. */
    method Reset()
      requires Valid()
      modifies this
      ensures Valid() && Mails() == []
    {
      entry, inOffset, outOffset := 0, 0, 0;
    }
  }

  // ---- the protocol: one step per interrupt-disabled region

  datatype State = State(mails: seq<Mail>, senders: Side, receivers: Side)

  datatype Action =
    | Send(t: Tid, v: Mail)        // there is room
    | SendBlock(t: Tid, at: nat)   // the box is full
    | SendGiveUp(t: Tid)
    | Recv(t: Tid)                 // there is mail
    | RecvBlock(t: Tid, at: nat)   // the box is empty
    | RecvGiveUp(t: Tid)
    | Timeout(t: Tid)
    | Reset

  predicate Running(s: State, t: Tid) {
    t !in s.senders.waiting && t !in s.receivers.waiting
  }

  predicate Enabled(s: State, a: Action, size: nat) {
    match a
    case Send(t, _) => Running(s, t) && |s.mails| < size
    case SendBlock(t, at) => Running(s, t) && |s.mails| == size && at <= |s.senders.waiting|
    case SendGiveUp(t) => Running(s, t) && |s.mails| == size
    case Recv(t) => Running(s, t) && s.mails != []
    case RecvBlock(t, at) => Running(s, t) && s.mails == [] && at <= |s.receivers.waiting|
    case RecvGiveUp(t) => Running(s, t) && s.mails == []
    case Timeout(_) => true
    case Reset => true
  }

  function Next(s: State, a: Action, size: nat): State
    requires Enabled(s, a, size)
  {
    match a
    case Send(t, v) => State(s.mails + [v], Leave(s.senders, t), Wake(s.receivers))
    case SendBlock(t, at) => s.(senders := Block(s.senders, t, at))
    case SendGiveUp(t) => s.(senders := Leave(s.senders, t))
    case Recv(t) => State(s.mails[1..], Wake(s.senders), Leave(s.receivers, t))
    case RecvBlock(t, at) => s.(receivers := Block(s.receivers, t, at))
    case RecvGiveUp(t) => s.(receivers := Leave(s.receivers, t))
    case Timeout(t) => s.(senders := Expire(s.senders, t), receivers := Expire(s.receivers, t))
    case Reset => State([], Release(s.senders), Release(s.receivers))
  }

  /** Suspended receivers are outnumbered by nothing but mail that woken receivers are coming for; dually for senders and room. */
  ghost predicate Inv(s: State, size: nat) {
    |s.mails| <= size && Served(|s.mails|, s.receivers) && Served(size - |s.mails|, s.senders)
  }

  lemma StepKeepsInv(s: State, a: Action, size: nat)
    requires Inv(s, size) && Enabled(s, a, size)
    ensures Inv(Next(s, a, size), size)
  {
    match a
    case Send(t, _) =>
      LeaveServed(s.senders, t, size - |s.mails|);
      WakeServed(s.receivers, |s.mails|);
    case SendBlock(t, at) => BlockServed(s.senders, t, at);
    case SendGiveUp(t) => LeaveServed(s.senders, t, 0);
    case Recv(t) =>
      LeaveServed(s.receivers, t, |s.mails|);
      WakeServed(s.senders, size - |s.mails|);
    case RecvBlock(t, at) => BlockServed(s.receivers, t, at);
    case RecvGiveUp(t) => LeaveServed(s.receivers, t, 0);
    case Timeout(t) =>
      ExpireServed(s.senders, t, size - |s.mails|);
      ExpireServed(s.receivers, t, |s.mails|);
    case Reset =>
  }

  /** A reset leaves no mail and nobody waiting. */
  lemma ResetExactly(s: State, size: nat)
    ensures var s' := Next(s, Reset, size);
      |s'.mails| == 0 && forall t :: t !in s'.senders.waiting && t !in s'.receivers.waiting
  {
  }

  /** A running thread can always go on, in exactly one way for a box that has room or not, and mail or not. */
  lemma NeverStuck(s: State, t: Tid, v: Mail, size: nat)
    requires Inv(s, size) && Running(s, t)
    ensures Enabled(s, Send(t, v), size) <==> |s.mails| < size
    ensures Enabled(s, SendBlock(t, |s.senders.waiting|), size) && Enabled(s, SendGiveUp(t), size) <==> !Enabled(s, Send(t, v), size)
    ensures Enabled(s, Recv(t), size) <==> |s.mails| > 0
    ensures Enabled(s, RecvBlock(t, |s.receivers.waiting|), size) && Enabled(s, RecvGiveUp(t), size) <==> !Enabled(s, Recv(t), size)
  {
  }

  ghost predicate IsRun(s: State, steps: seq<Action>, size: nat)
    decreases |steps|
  {
    steps != [] ==> Enabled(s, steps[0], size) && IsRun(Next(s, steps[0], size), steps[1..], size)
  }

  ghost function After(s: State, steps: seq<Action>, size: nat): State
    requires IsRun(s, steps, size)
    decreases |steps|
  {
    if steps == [] then s else After(Next(s, steps[0], size), steps[1..], size)
  }

  function Sent(steps: seq<Action>): seq<Mail> {
    if steps == [] then [] else (if steps[0].Send? then [steps[0].v] else []) + Sent(steps[1..])
  }

  /** The mails that the receives of a run take out, in order. */
  ghost function Received(s: State, steps: seq<Action>, size: nat): seq<Mail>
    requires IsRun(s, steps, size)
    decreases |steps|
  {
    if steps == [] then []
    else (if steps[0].Recv? then [s.mails[0]] else []) + Received(Next(s, steps[0], size), steps[1..], size)
  }

  /** Without resets, what has been received, followed by what is still in the box, is what was there followed by what
      has been sent: first in, first out, nothing lost and nothing doubled; and nobody is ever stranded. */
  lemma {:induction false} EveryRun(s: State, steps: seq<Action>, size: nat)
    requires Inv(s, size) && IsRun(s, steps, size)
    ensures Inv(After(s, steps, size), size)
    ensures Reset !in steps ==> Received(s, steps, size) + After(s, steps, size).mails == s.mails + Sent(steps)
    decreases |steps|
  {
    if steps != [] {
      var n, rest := Next(s, steps[0], size), steps[1..];
      StepKeepsInv(s, steps[0], size);
      EveryRun(n, rest, size);
      if Reset !in steps {
        assert steps[0] in steps && forall a :: a in rest ==> a in steps;
        FirstStep(s, steps[0], size, Received(n, rest, size), After(n, rest, size).mails, Sent(rest));
      }
    }
  }

  lemma FirstStep(s: State, a: Action, size: nat, received: seq<Mail>, left: seq<Mail>, sent: seq<Mail>)
    requires Enabled(s, a, size) && a != Reset
    requires received + left == Next(s, a, size).mails + sent
    ensures (if a.Recv? then [s.mails[0]] else []) + received + left == s.mails + ((if a.Send? then [a.v] else []) + sent)
  {
    if a.Recv? {
      assert s.mails == [s.mails[0]] + s.mails[1..];
      assert [s.mails[0]] + received + left == [s.mails[0]] + (received + left);
      assert [s.mails[0]] + (s.mails[1..] + sent) == s.mails + sent;
      assert [] + sent == sent;
    } else if a.Send? {
      assert [] + received == received;
      assert s.mails + [a.v] + sent == s.mails + ([a.v] + sent);
    } else {
      assert [] + received == received && [] + sent == sent;
    }
  }
}
