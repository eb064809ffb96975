// The message queue object of ipc.c: slots threaded into a free list and a queue
// through their next fields. Each method is the work of one interrupt-disabled
// region, or one copy between two of them, and does to the object what the
// corresponding step of MqSpec does.
module MsgQueue {
  import opened Seqs
  import opened Words
  import opened Chains
  import opened MqSpec

  /** No slot is twice in the queue or on the free list, or in both. */
  ghost predicate Parted(c: Core) {
    Distinct(c.queue) && Distinct(c.free) && forall x :: x in c.queue ==> x !in c.free
  }

  ghost predicate Neither(c: Core, x: Slot) {
    x !in c.queue && x !in c.free
  }

  lemma LinkParts(c: Core, x: Slot)
    requires Parted(c) && Neither(c, x)
    ensures Parted(LinkTail(c, x)) && Parted(LinkHead(c, x)) && Parted(PutFree(c, x))
  {
    InsertMembers(c.queue, |c.queue|, x);
    InsertMembers(c.queue, 0, x);
    InsertMembers(c.free, 0, x);
    assert InsertAt(c.queue, |c.queue|, x) == c.queue + [x] && InsertAt(c.queue, 0, x) == [x] + c.queue;
    assert InsertAt(c.free, 0, x) == [x] + c.free;
  }

  class MessageQueue {
    const msgSize: nat
    const next: array<int>             // the header word of each slot
    const data: array<seq<byte>>       // the bytes behind it
    var head: int                      // msg_queue_head
    var tail: int                      // msg_queue_tail
    var free: int                      // msg_queue_free
    var entry: nat
    ghost var core: Core

    ghost predicate Linked()
      reads this, next, data
    {
      && next.Length == data.Length
      && Chain(next[..], head, core.queue)
      && Chain(next[..], free, core.free)
      && tail == (if core.queue == [] then NIL else core.queue[|core.queue| - 1])
      && Parted(core)
      && forall i :: 0 <= i < data.Length ==> |data[i]| == msgSize
    }

    ghost predicate Valid()
      reads this, next, data
    {
      Linked() && entry == core.entry == |core.queue|
    }

    /** x is neither queued nor free: it is in the caller's hands. */
    ghost predicate Mine(x: int)
      reads this, next
    {
      0 <= x < next.Length && x !in core.queue && x !in core.free
    }

    /** The next fields of slots in anyone else's hands than the caller's, who holds msg, are as they were. */
    twostate predicate OthersKeep(msg: int)
      reads this, next
    {
      forall x: nat :: x < next.Length && x != msg && old(Mine(x)) ==> next[x] == old(next[x])
    }

    /** rt_mq_init: every slot is pushed on the free list in turn. */
    constructor (maxMsgs: nat, msgSize: nat)
      ensures Valid() && this.msgSize == msgSize && next.Length == maxMsgs && fresh(next) && fresh(data)
      ensures core.queue == [] && core.entry == 0
      ensures Distinct(core.free) && forall x: Slot :: x in core.free <==> x < maxMsgs
    {
      this.msgSize := msgSize;
      next := new int[maxMsgs](i => NIL);
      data := new seq<byte>[maxMsgs](i => seq(msgSize, j => 0));
      head, tail, free, entry := NIL, NIL, NIL, 0;
      core := Core([], [], 0);
      new;
      var temp := 0;
      while temp < maxMsgs
        invariant temp <= maxMsgs && Valid()
        invariant core.queue == [] && core.entry == 0
        invariant forall x: Slot :: x in core.free <==> x < temp
        modifies this, next
      {
        Push(temp);
        temp := temp + 1;
      }
    }

    /** Puts a slot at the front of the free list. */
    method Push(x: nat)
      requires Linked() && Mine(x)
      modifies this`free, this`core, next
      ensures Linked() && core == PutFree(old(core), x) && OthersKeep(x)
    {
      hide Chain, Parted;
      ChainFrame(next[..], head, core.queue, x, free);
      ChainFrame(next[..], free, core.free, x, free);
      LinkParts(core, x);
      ghost var before := next[..];
      next[x] := free;
      assert next[..] == before[x := free];
      ChainPrepend(next[..], core.free, x);
      free := x;
      core := PutFree(core, x);
    }

    /** Takes the first slot off the free list; RT_NULL when there is none. */
    method TakeFreeSlot() returns (msg: int)
      requires Valid()
      modifies this`free, this`core
      ensures Valid() && (msg == NIL <==> old(core).free == [])
      ensures msg == NIL ==> core == old(core)
      ensures msg != NIL ==> msg == old(core).free[0] && core == TakeFree(old(core)) && Mine(msg)
    {
      msg := free;
      if msg != NIL {
        ChainBounds(next[..], free, core.free);
        TailMembers(core.free);
        free := next[msg];
        core := TakeFree(core);
      }
    }

    /** The unlocked part of a send: the slot becomes a list of its own and takes the bytes. */
    method CopyIn(msg: nat, buf: seq<byte>)
      requires Valid() && Mine(msg) && |buf| <= msgSize
      modifies next, data
      ensures Valid() && data[msg] == Fill(old(data[msg]), buf) && next[msg] == NIL && OthersKeep(msg)
      ensures forall i :: 0 <= i < data.Length && i != msg ==> data[i] == old(data[i])
    {
      ChainFrame(next[..], head, core.queue, msg, NIL);
      ChainFrame(next[..], free, core.free, msg, NIL);
      ghost var before := next[..];
      next[msg] := NIL;
      assert next[..] == before[msg := NIL];
      data[msg] := Fill(data[msg], buf);
    }

    /** The unlocked part of rt_mq_urgent: the bytes only. */
    method CopyInUrgent(msg: nat, buf: seq<byte>)
      requires Valid() && Mine(msg) && |buf| <= msgSize
      modifies data
      ensures Valid() && data[msg] == Fill(old(data[msg]), buf)
      ensures forall i :: 0 <= i < data.Length && i != msg ==> data[i] == old(data[i])
    {
      data[msg] := Fill(data[msg], buf);
    }

    /** Slot msg is hung behind the last queued one, if there is one. */
    method Append(msg: nat)
      requires Linked() && Mine(msg) && next[msg] == NIL
      modifies next
      ensures forall i :: 0 <= i < next.Length && i != tail ==> next[i] == old(next[i])
      ensures Chain(next[..], if core.queue == [] then msg else head, core.queue + [msg])
      ensures Chain(next[..], free, core.free)
    {
      hide Chain;
      ChainBounds(next[..], head, core.queue);
      ChainEnds(next[..], head, core.queue);
      if tail != NIL {
        ChainAppend(next[..], head, core.queue, msg);
        assert tail in core.queue;
        ChainFrame(next[..], free, core.free, tail, msg);
        ghost var before := next[..];
        next[tail] := msg;
        assert next[..] == before[tail := msg];
      } else {
        ChainOne(next[..], msg);
        assert core.queue + [msg] == [msg];
      }
    }

    /** The second region of rt_mq_send_wait. */
    method Link(msg: nat)
      requires Valid() && Mine(msg) && next[msg] == NIL
      modifies this`head, this`tail, this`entry, this`core, next
      ensures Valid() && core == LinkTail(old(core), msg) && OthersKeep(msg)
    {
      hide Chain, Parted;
      ChainEnds(next[..], head, core.queue);
      LinkParts(core, msg);
      Append(msg);
      tail := msg;
      if head == NIL {
        head := msg;
      }
      entry := entry + 1;
      core := LinkTail(core, msg);
    }

    /** The second region of rt_mq_urgent. */
    method LinkUrgent(msg: nat)
      requires Valid() && Mine(msg)
      modifies this`head, this`tail, this`entry, this`core, next
      ensures Valid() && core == LinkHead(old(core), msg) && OthersKeep(msg)
    {
      hide Chain, Parted;
      ChainFrame(next[..], head, core.queue, msg, head);
      ChainFrame(next[..], free, core.free, msg, head);
      LinkParts(core, msg);
      ghost var before := next[..];
      next[msg] := head;
      assert next[..] == before[msg := head];
      ChainPrepend(next[..], core.queue, msg);
      head := msg;
      if tail == NIL {
        tail := msg;
      }
      entry := entry + 1;
      core := LinkHead(core, msg);
    }

    method PopHead() returns (msg: nat)
      requires Linked() && core.queue != []
      modifies this`head, this`tail, this`core
      ensures Linked() && msg == old(core).queue[0] && Mine(msg)
      ensures core == old(core).(queue := old(core).queue[1..])
    {
      ChainBounds(next[..], head, core.queue);
      TailMembers(core.queue);
      assert head in core.queue && tail == core.queue[|core.queue| - 1];
      msg := head;
      head := next[msg];
      if tail == msg {
        tail := NIL;
      }
      core := core.(queue := core.queue[1..]);
    }

    /** The first region of rt_mq_recv, once entry is not 0. */
    method TakeHeadSlot() returns (msg: nat)
      requires Valid() && entry > 0
      modifies this`head, this`tail, this`entry, this`core
      ensures Valid() && core == TakeHead(old(core)) && msg == old(core).queue[0] && Mine(msg)
    {
      msg := PopHead();
      entry := entry - 1;
      core := core.(entry := core.entry - 1);
    }

    /** The unlocked part of a receive. */
    method CopyOut(msg: nat, size: nat) returns (bytes: seq<byte>)
      requires Valid() && Mine(msg)
      ensures bytes == data[msg][..Min(size, msgSize)]
    {
      bytes := data[msg][..if size > msgSize then msgSize else size];
    }

    /** The second region of rt_mq_recv. */
    method PutFreeSlot(msg: nat)
      requires Valid() && Mine(msg)
      modifies this`free, this`core, next
      ensures Valid() && core == PutFree(old(core), msg) && OthersKeep(msg)
    {
      Push(msg);
    }

    /** The first queued slot goes to the free list. */
    method Discard()
      requires Linked() && core.queue != []
      modifies this`head, this`tail, this`free, this`core, next
      ensures Linked() && core == Core(old(core).queue[1..], [old(core).queue[0]] + old(core).free, old(core).entry)
      ensures OthersKeep(NIL) && forall x :: old(Mine(x)) ==> Mine(x)
    {
      hide Chain, Distinct;
      var msg := PopHead();
      Push(msg);
    }

    /** rt_mq_control(RT_IPC_CMD_RESET), as far as the slots go. */
    method Reset()
      requires Valid()
      modifies this, next
      ensures Valid() && core == Clear(old(core)) && OthersKeep(NIL)
    {
      hide Chain, Distinct, MqSpec.Reverse;
      ghost var q, f, k := core.queue, core.free, 0;
      ChainEnds(next[..], head, core.queue);
      ReverseNone();
      while head != NIL
        invariant Linked() && k <= |q| && core.queue == q[k..] && (head == NIL <==> k == |q|)
        invariant core.free == MqSpec.Reverse(q[..k]) + f
        invariant OthersKeep(NIL) && forall x :: old(Mine(x)) ==> Mine(x)
        decreases |q| - k
      {
        Discard();
        ReversedNext(q, f, k);
        k := k + 1;
        ChainEnds(next[..], head, core.queue);
      }
      assert q[..k] == q;
      entry := 0;
      core := core.(entry := 0);
    }
  }

  lemma ReverseNone()
    ensures MqSpec.Reverse([]) == []
  {
  }

  lemma ReversedNext(q: seq<Slot>, f: seq<Slot>, k: nat)
    requires k < |q|
    ensures [q[k..][0]] + (MqSpec.Reverse(q[..k]) + f) == MqSpec.Reverse(q[..k + 1]) + f
    ensures q[k..][1..] == q[k + 1..]
  {
    assert q[..k + 1] == q[..k] + [q[k]];
    ReverseAppend(q[..k], q[k]);
  }

  lemma {:induction false} ReverseAppend(s: seq<Slot>, x: Slot)
    ensures MqSpec.Reverse(s + [x]) == [x] + MqSpec.Reverse(s)
  {
    if s == [] {
      assert [] + [x] == [x] && [x][1..] == [];
    } else {
      ReverseAppend(s[1..], x);
      assert (s + [x])[1..] == s[1..] + [x];
    }
  }
}
