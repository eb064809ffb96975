// The message queue of ipc.c as a protocol: each interrupt-disabled region is one
// step, and the copies into and out of a slot are steps of their own between them.
module MqSpec {
  import opened Seqs
  import opened Words

  type Slot = nat
  type Tid = nat

  // ---- the pool of slots, as the regions of rt_mq_* see it

  datatype Core = Core(queue: seq<Slot>, free: seq<Slot>, entry: nat)

  function TakeFree(c: Core): Core
    requires c.free != []
  {
    c.(free := c.free[1..])
  }

  function LinkTail(c: Core, s: Slot): Core {
    c.(queue := c.queue + [s], entry := c.entry + 1)
  }

  function LinkHead(c: Core, s: Slot): Core {
    c.(queue := [s] + c.queue, entry := c.entry + 1)
  }

  function TakeHead(c: Core): Core
    requires c.queue != [] && c.entry > 0
  {
    c.(queue := c.queue[1..], entry := c.entry - 1)
  }

  function PutFree(c: Core, s: Slot): Core {
    c.(free := [s] + c.free)
  }

  function Reverse(s: seq<Slot>): seq<Slot> {
    if s == [] then [] else Reverse(s[1..]) + [s[0]]
  }

  function Clear(c: Core): Core {
    Core([], Reverse(c.queue) + c.free, 0)
  }

  // ---- what a thread is doing with the queue

  datatype Phase =
    | Idle
    | SendWaiting(buf: seq<byte>)                      // on suspend_sender_thread
    | SendWoken(buf: seq<byte>)                        // resumed, has not re-checked yet
    | SendHolding(slot: Slot, buf: seq<byte>, urgent: bool)
    | SendCopied(slot: Slot, buf: seq<byte>, urgent: bool)
    | RecvWaiting                                      // on parent.suspend_thread
    | RecvWoken
    | RecvHolding(slot: Slot, msg: seq<byte>)          // msg: what the slot held when it was taken
    | RecvCopied(slot: Slot, msg: seq<byte>, size: nat, got: seq<byte>)   // size: what the caller has room for

  predicate HasSlot(p: Phase) {
    p.SendHolding? || p.SendCopied? || p.RecvHolding? || p.RecvCopied?
  }

  datatype State = State(
    core: Core,
    data: seq<seq<byte>>,          // the bytes behind each slot's header
    phase: map<Tid, Phase>,
    senders: seq<Tid>,             // suspend_sender_thread
    receivers: seq<Tid>)           // parent.suspend_thread

  /** memcpy of buf to the front of a slot. */
  function Fill(old_: seq<byte>, buf: seq<byte>): seq<byte>
    requires |buf| <= |old_|
  {
    buf + old_[|buf|..]
  }

  datatype Action =
    | SendTake(t: Tid, buf: seq<byte>, urgent: bool)
    | SendBlock(t: Tid, buf: seq<byte>, at: nat)
    | SendCopy(t: Tid)
    | SendLink(t: Tid)
    | SendGiveUp(t: Tid)
    | RecvTake(t: Tid)
    | RecvBlock(t: Tid, at: nat)
    | RecvCopy(t: Tid, size: nat)
    | RecvPut(t: Tid)
    | RecvGiveUp(t: Tid)
    | Timeout(t: Tid)
    | Reset

  /** A thread may enter rt_mq_send with buf when it is idle, and goes on with its own buf when woken. */
  predicate MaySend(p: Phase, buf: seq<byte>, msgSize: nat) {
    (p.Idle? && 0 < |buf| <= msgSize) || (p.SendWoken? && p.buf == buf)
  }

  predicate MayRecv(p: Phase) {
    p.Idle? || p.RecvWoken?
  }

  predicate Enabled(s: State, a: Action, msgSize: nat) {
    match a
    case SendTake(t, buf, urgent) => t in s.phase && MaySend(s.phase[t], buf, msgSize) && s.core.free != []
                                     && (urgent ==> s.phase[t].Idle?)
    case SendBlock(t, buf, at) => t in s.phase && MaySend(s.phase[t], buf, msgSize) && s.core.free == [] && at <= |s.senders|
    case SendCopy(t) => t in s.phase && s.phase[t].SendHolding? && s.phase[t].slot < |s.data| && |s.phase[t].buf| <= |s.data[s.phase[t].slot]|
    case SendLink(t) => t in s.phase && s.phase[t].SendCopied?
    case SendGiveUp(t) => t in s.phase && s.phase[t].SendWoken? && s.core.free == []
    case RecvTake(t) => t in s.phase && MayRecv(s.phase[t]) && s.core.entry > 0 && s.core.queue != [] && s.core.queue[0] < |s.data|
    case RecvBlock(t, at) => t in s.phase && MayRecv(s.phase[t]) && s.core.entry == 0 && at <= |s.receivers|
    case RecvCopy(t, size) => t in s.phase && s.phase[t].RecvHolding? && s.phase[t].slot < |s.data|
    case RecvPut(t) => t in s.phase && s.phase[t].RecvCopied?
    case RecvGiveUp(t) => t in s.phase && s.phase[t].RecvWoken? && s.core.entry == 0
    case Timeout(t) => t in s.phase && (s.phase[t].SendWaiting? || s.phase[t].RecvWaiting?)
    case Reset => true
  }

  /** The first waiting receiver, if any, is resumed. */
  function WakeReceiver(s: State): State {
    if s.receivers == [] then s
    else s.(receivers := s.receivers[1..], phase := s.phase[s.receivers[0] := RecvWoken])
  }

  function WakeSender(s: State): State {
    if s.senders == [] then s
    else
      var t := s.senders[0];
      var buf := if t in s.phase && s.phase[t].SendWaiting? then s.phase[t].buf else [];
      s.(senders := s.senders[1..], phase := s.phase[t := SendWoken(buf)])
  }

  /** rt_ipc_list_resume_all on both lists: the waiters return with an error. */
  function Released(phase: map<Tid, Phase>): map<Tid, Phase> {
    map t | t in phase :: if phase[t].SendWaiting? || phase[t].RecvWaiting? then Idle else phase[t]
  }

  function Next(s: State, a: Action, msgSize: nat): State
    requires Enabled(s, a, msgSize)
  {
    match a
    case SendTake(t, buf, urgent) =>
      s.(core := TakeFree(s.core), phase := s.phase[t := SendHolding(s.core.free[0], buf, urgent)])
    case SendBlock(t, buf, at) =>
      s.(senders := InsertAt(s.senders, at, t), phase := s.phase[t := SendWaiting(buf)])
    case SendCopy(t) =>
      var p := s.phase[t];
      s.(data := s.data[p.slot := Fill(s.data[p.slot], p.buf)], phase := s.phase[t := SendCopied(p.slot, p.buf, p.urgent)])
    case SendLink(t) =>
      var p := s.phase[t];
      WakeReceiver(s.(core := if p.urgent then LinkHead(s.core, p.slot) else LinkTail(s.core, p.slot), phase := s.phase[t := Idle]))
    case SendGiveUp(t) => s.(phase := s.phase[t := Idle])
    case RecvTake(t) =>
      s.(core := TakeHead(s.core), phase := s.phase[t := RecvHolding(s.core.queue[0], s.data[s.core.queue[0]])])
    case RecvBlock(t, at) =>
      s.(receivers := InsertAt(s.receivers, at, t), phase := s.phase[t := RecvWaiting])
    case RecvCopy(t, size) =>
      var p := s.phase[t];
      var bytes := s.data[p.slot];
      s.(phase := s.phase[t := RecvCopied(p.slot, p.msg, size, bytes[..Min(size, |bytes|)])])
    case RecvPut(t) =>
      WakeSender(s.(core := PutFree(s.core, s.phase[t].slot), phase := s.phase[t := Idle]))
    case RecvGiveUp(t) => s.(phase := s.phase[t := Idle])
    case Timeout(t) =>
      s.(senders := Without(s.senders, t), receivers := Without(s.receivers, t), phase := s.phase[t := Idle])
    case Reset =>
      s.(core := Clear(s.core), phase := Released(s.phase), senders := [], receivers := [])
  }

  // ---- what the queue is for: a bounded double-ended queue

  /** The messages in the queue, front first. */
  function Messages(queue: seq<Slot>, data: seq<seq<byte>>): (r: seq<seq<byte>>)
    requires forall i :: 0 <= i < |queue| ==> queue[i] < |data|
    ensures |r| == |queue| && forall i :: 0 <= i < |queue| ==> r[i] == data[queue[i]]
  {
    seq(|queue|, i requires 0 <= i < |queue| => data[queue[i]])
  }

  datatype Event = PushBack(m: seq<byte>) | PushFront(m: seq<byte>) | PopFront(m: seq<byte>) | Drop | Silent

  /** The effect of a visible event on a bounded double-ended queue, if the event is possible. */
  function Deque(d: seq<seq<byte>>, e: Event, capacity: nat): Option<seq<seq<byte>>> {
    match e
    case PushBack(m) => if |d| < capacity then Some(d + [m]) else None
    case PushFront(m) => if |d| < capacity then Some([m] + d) else None
    case PopFront(m) => if d != [] && d[0] == m then Some(d[1..]) else None
    case Drop => Some([])
    case Silent => Some(d)
  }

  /** What a step does to the queue of messages; everything but linking, taking and resetting is silent. */
  function Visible(s: State, a: Action, msgSize: nat): Event
    requires Enabled(s, a, msgSize)
  {
    match a
    case SendLink(t) =>
      var m := if s.phase[t].slot < |s.data| then s.data[s.phase[t].slot] else [];
      if s.phase[t].urgent then PushFront(m) else PushBack(m)
    case RecvTake(t) => PopFront(s.data[s.core.queue[0]])
    case Reset => Drop
    case _ => Silent
  }
}
