// The event object of ipc.c: a set of 32 flags, and threads suspended until an AND
// or an OR of some of them holds.
module Event {
  import opened Seqs

  type Tid = nat

  // the 32-bit flag word, as the set of the bits that are on
  type Flags = set<nat>

  // the three bits of the option byte
  datatype Mode = Mode(all: bool, any: bool, clear: bool)   // RT_EVENT_FLAG_AND, _OR, _CLEAR

  // want and mode: the thread's event_set and event_info
  datatype Waiter = Waiter(tid: Tid, want: Flags, mode: Mode)

  /** The condition that rt_event_send and rt_event_recv test. AND is looked at before OR. */
  predicate Satisfied(want: Flags, mode: Mode, flags: Flags) {
    if mode.all then want * flags == want
    else mode.any && want * flags != {}
  }

  /** What a satisfied waiter gets: all it wanted, or as much of it as is there. */
  function Got(want: Flags, mode: Mode, flags: Flags): Flags {
    if mode.all then want else want * flags
  }

  function Cleared(want: Flags, mode: Mode, flags: Flags): Flags {
    if mode.clear then flags - want else flags
  }

  // flags: what is left; kept: who still waits; woken: who was resumed, want holding what it got
  datatype Outcome = Outcome(flags: Flags, kept: seq<Waiter>, woken: seq<Waiter>)

  /** One pass over the suspended threads in list order. */
  function Scan(flags: Flags, ws: seq<Waiter>): Outcome {
    if ws == [] then Outcome(flags, [], [])
    else
      var w := ws[0];
      if Satisfied(w.want, w.mode, flags) then
        var got := Got(w.want, w.mode, flags);
        var r := Scan(Cleared(got, w.mode, flags), ws[1..]);
        r.(woken := [w.(want := got)] + r.woken)
      else
        var r := Scan(flags, ws[1..]);
        r.(kept := [w] + r.kept)
  }

  // ---- the object

  class Event {
    var flags: Flags
    var waiters: seq<Waiter>   // parent.suspend_thread

    /** rt_event_init */
    constructor ()
      ensures flags == {} && waiters == []
    {
      flags, waiters := {}, [];
    }

    /** rt_event_send; false stands for -RT_ERROR. */
    method Send(bits: Flags) returns (ok: bool, woken: seq<Waiter>)
      modifies this
      ensures ok == (bits != {})
      ensures !ok ==> flags == old(flags) && waiters == old(waiters) && woken == []
      ensures ok ==> Outcome(flags, waiters, woken) == Scan(old(flags) + bits, old(waiters))
    {
      ok, woken := bits != {}, [];
      if ok {
        flags := flags + bits;
        var n := 0;   // the node under inspection; the ones before it stay
        ghost var k := 0;
        while n < |waiters|
          invariant n <= |waiters| && k <= |old(waiters)| && waiters[n..] == old(waiters)[k..]
          invariant Scan(old(flags) + bits, old(waiters)) == Prepend(Scan(flags, waiters[n..]), waiters[..n], woken)
          decreases |old(waiters)| - k
        {
          ghost var rest := Scan(flags, waiters[n..]);
          ghost var kept, out := waiters[..n], woken;
          var thread := waiters[n];
          assert waiters[n..][0] == thread && waiters[n..][1..] == waiters[n + 1..];
          if Satisfied(thread.want, thread.mode, flags) {
            thread := thread.(want := Got(thread.want, thread.mode, flags));
            flags := Cleared(thread.want, thread.mode, flags);
            woken := woken + [thread];
            ghost var was := waiters;
            waiters := RemoveAt(waiters, n);
            assert waiters[n..] == was[n + 1..] && waiters[..n] == kept;
            PrependWoken(Scan(flags, waiters[n..]), kept, out, thread);
          } else {
            n := n + 1;
            assert waiters[..n] == kept + [thread];
            PrependKept(Scan(flags, waiters[n..]), kept, out, thread);
          }
          k := k + 1;
        }
        assert waiters[..n] == waiters;
      }
    }

    /** The region of rt_event_recv in front of the suspension. done: it returns at once, with got; otherwise the
        thread is now suspended at position at of the list. */
    method Recv(tid: Tid, want: Flags, mode: Mode, wait: bool, at: nat) returns (done: bool, ok: bool, got: Flags)
      requires mode.all || mode.any
      requires at <= |waiters|
      modifies this
      ensures ok == (want != {} && Satisfied(want, mode, old(flags)))
      ensures ok ==> done && got == want * old(flags) && flags == Cleared(want, mode, old(flags)) && waiters == old(waiters)
      ensures !ok ==> flags == old(flags) && done == (want == {} || !wait)
      ensures !done ==> waiters == InsertAt(old(waiters), at, Waiter(tid, want, mode))
      ensures done ==> waiters == old(waiters)
    {
      done, ok, got := true, false, {};
      if want != {} {
        if mode.all {
          ok := flags * want == want;
        } else if mode.any {
          ok := flags * want != {};
        }
        if ok {
          got := flags * want;
          if mode.clear {
            flags := flags - want;
          }
        } else if wait {
          waiters := InsertAt(waiters, at, Waiter(tid, want, mode));
          done := false;
        }
      }
    }
  }

  /** An outcome reached after kept waiters and woken ones have been passed. */
  function Prepend(r: Outcome, kept: seq<Waiter>, woken: seq<Waiter>): Outcome {
    Outcome(r.flags, kept + r.kept, woken + r.woken)
  }

  lemma PrependWoken(r: Outcome, kept: seq<Waiter>, woken: seq<Waiter>, w: Waiter)
    ensures Prepend(r.(woken := [w] + r.woken), kept, woken) == Prepend(r, kept, woken + [w])
  {
    assert woken + ([w] + r.woken) == woken + [w] + r.woken;
  }

  lemma PrependKept(r: Outcome, kept: seq<Waiter>, woken: seq<Waiter>, w: Waiter)
    ensures Prepend(r.(kept := [w] + r.kept), kept, woken) == Prepend(r, kept + [w], woken)
  {
    assert kept + ([w] + r.kept) == kept + [w] + r.kept;
  }

  /** AND asks for all the flags wanted, OR for one of them; AND is given all of them, OR those that are there. */
  lemma SatisfiedExactly(want: Flags, mode: Mode, flags: Flags)
    ensures mode.all ==> (Satisfied(want, mode, flags) <==> want <= flags)
    ensures !mode.all ==> (Satisfied(want, mode, flags) <==> mode.any && exists x :: x in want && x in flags)
    ensures Satisfied(want, mode, flags) ==> forall x :: x in Got(want, mode, flags) <==> x in want && x in flags
    ensures forall x :: x in Cleared(want, mode, flags) <==> x in flags && !(mode.clear && x in want)
  {
    if mode.all {
      assert want * flags == want <==> want <= flags;
    } else if x :| x in want && x in flags {
      assert x in want * flags;
    } else {
      assert want * flags == {};
    }
  }

  // ---- no lost wake-up

  lemma SatisfiedMonotone(want: Flags, mode: Mode, small: Flags, big: Flags)
    requires small <= big && Satisfied(want, mode, small)
    ensures Satisfied(want, mode, big)
  {
    if mode.all {
      assert want * big == want;
    } else {
      var x :| x in want * small;
      assert x in want * big;
    }
  }

  lemma {:induction false} ScanShrinks(flags: Flags, ws: seq<Waiter>)
    ensures Scan(flags, ws).flags <= flags
  {
    if ws != [] {
      var w := ws[0];
      ScanShrinks(Cleared(Got(w.want, w.mode, flags), w.mode, flags), ws[1..]);
      ScanShrinks(flags, ws[1..]);
    }
  }

  ghost predicate NoneReady(flags: Flags, ws: seq<Waiter>) {
    forall i :: 0 <= i < |ws| ==> !Satisfied(ws[i].want, ws[i].mode, flags)
  }

  /** Whoever is still suspended after a pass is unsatisfied by what is left, although the flag set shrank during the pass. */
  lemma {:induction false} ScanLosesNone(flags: Flags, ws: seq<Waiter>)
    ensures NoneReady(Scan(flags, ws).flags, Scan(flags, ws).kept)
  {
    if ws != [] {
      var w := ws[0];
      if Satisfied(w.want, w.mode, flags) {
        ScanLosesNone(Cleared(Got(w.want, w.mode, flags), w.mode, flags), ws[1..]);
      } else {
        ScanLosesNone(flags, ws[1..]);
        ScanShrinks(flags, ws[1..]);
        var r := Scan(flags, ws);
        if Satisfied(w.want, w.mode, r.flags) {
          SatisfiedMonotone(w.want, w.mode, r.flags, flags);
        }
      }
    }
  }

  // ---- what is delivered

  /** The flags that the woken CLEAR waiters have used up between them. */
  function Consumed(woken: seq<Waiter>): Flags {
    if woken == [] then {}
    else (if woken[0].mode.clear then woken[0].want else {}) + Consumed(woken[1..])
  }

  lemma GotWithin(want: Flags, mode: Mode, flags: Flags)
    requires Satisfied(want, mode, flags)
    ensures Got(want, mode, flags) <= flags && Got(want, mode, flags) <= want
    ensures want != {} ==> Got(want, mode, flags) != {}
  {
    if mode.all {
      assert want <= flags by { assert want * flags <= flags; }
    }
  }

  /** Consumed flags are exactly the ones that disappear: nothing is cleared that was not delivered to a CLEAR waiter. */
  lemma {:induction false} ScanConsumes(flags: Flags, ws: seq<Waiter>)
    ensures Scan(flags, ws).flags == flags - Consumed(Scan(flags, ws).woken)
    ensures Consumed(Scan(flags, ws).woken) <= flags
  {
    if ws != [] {
      var w, r := ws[0], Scan(flags, ws);
      if Satisfied(w.want, w.mode, flags) {
        var got := Got(w.want, w.mode, flags);
        var left := Cleared(got, w.mode, flags);
        ScanConsumes(left, ws[1..]);
        assert r.woken[0] == w.(want := got) && r.woken[1..] == Scan(left, ws[1..]).woken;
        GotWithin(w.want, w.mode, flags);
      } else {
        ScanConsumes(flags, ws[1..]);
      }
    }
  }

  /** out is waiter w resumed: with all it wanted under AND, with some of it under OR. */
  ghost predicate FromWaiter(w: Waiter, out: Waiter) {
    && out.tid == w.tid && out.mode == w.mode
    && out.want <= w.want
    && (w.mode.all ==> out.want == w.want)
    && (w.want != {} ==> out.want != {})
  }

  /** Everything delivered was there when the pass began, and nobody is woken with nothing it wanted. */
  lemma {:induction false} DeliveredFrom(flags: Flags, ws: seq<Waiter>, j: nat)
    requires j < |Scan(flags, ws).woken|
    ensures Scan(flags, ws).woken[j].want <= flags
    ensures exists w :: w in ws && FromWaiter(w, Scan(flags, ws).woken[j])
  {
    var w := ws[0];
    if Satisfied(w.want, w.mode, flags) {
      var got := Got(w.want, w.mode, flags);
      var left := Cleared(got, w.mode, flags);
      GotWithin(w.want, w.mode, flags);
      if j > 0 {
        DeliveredFrom(left, ws[1..], j - 1);
      } else {
        assert FromWaiter(w, w.(want := got));
      }
    } else {
      DeliveredFrom(flags, ws[1..], j);
    }
  }

  /** Waiter k is resumed exactly if the flags left over by those in front of it satisfy it, and with all it wanted of these. */
  lemma {:induction false} ScanExactly(flags: Flags, ws: seq<Waiter>, k: nat)
    requires k < |ws|
    ensures var left := Scan(flags, ws[..k]); var r := Scan(flags, ws);
      && (Satisfied(ws[k].want, ws[k].mode, left.flags) ==>
          |left.woken| < |r.woken| && left.woken <= r.woken && r.woken[|left.woken|] == ws[k].(want := ws[k].want * left.flags))
      && (!Satisfied(ws[k].want, ws[k].mode, left.flags) ==>
          |left.kept| < |r.kept| && left.kept <= r.kept && r.kept[|left.kept|] == ws[k])
  {
    var w := ws[0];
    if k > 0 {
      assert ws[..k][0] == w && ws[..k][1..] == ws[1..][..k - 1] && ws[k] == ws[1..][k - 1];
      if Satisfied(w.want, w.mode, flags) {
        ScanExactly(Cleared(Got(w.want, w.mode, flags), w.mode, flags), ws[1..], k - 1);
      } else {
        ScanExactly(flags, ws[1..], k - 1);
      }
    } else {
      assert ws[..0] == [];
      SatisfiedExactly(w.want, w.mode, flags);
      if Satisfied(w.want, w.mode, flags) { assert Got(w.want, w.mode, flags) == w.want * flags; }
    }
  }

  /** Every waiter is resumed or still waits, and only once. */
  lemma {:induction false} ScanKeepsAll(flags: Flags, ws: seq<Waiter>)
    ensures |Scan(flags, ws).kept| + |Scan(flags, ws).woken| == |ws|
  {
    if ws != [] {
      var w := ws[0];
      ScanKeepsAll(Cleared(Got(w.want, w.mode, flags), w.mode, flags), ws[1..]);
      ScanKeepsAll(flags, ws[1..]);
    }
  }

  /** No flag is delivered to two CLEAR waiters of one pass. */
  lemma {:induction false} DeliveredOnce(flags: Flags, ws: seq<Waiter>, i: nat, j: nat)
    requires var out := Scan(flags, ws).woken; i < j < |out| && out[i].mode.clear && out[j].mode.clear
    ensures Scan(flags, ws).woken[i].want !! Scan(flags, ws).woken[j].want
  {
    var w := ws[0];
    if Satisfied(w.want, w.mode, flags) {
      var got := Got(w.want, w.mode, flags);
      var left := Cleared(got, w.mode, flags);
      if i > 0 {
        DeliveredOnce(left, ws[1..], i - 1, j - 1);
      } else {
        DeliveredFrom(left, ws[1..], j - 1);
      }
    } else {
      DeliveredOnce(flags, ws[1..], i, j);
    }
  }

  // ---- whole runs

  datatype State = State(flags: Flags, ws: seq<Waiter>)

  datatype Action =
    | Send(bits: Flags)
    | Recv(want: Flags, mode: Mode)
    | RecvBlock(w: Waiter, at: nat)
    | Timeout(tid: Tid)
    | Reset

  predicate Enabled(s: State, a: Action) {
    match a
    case Send(bits) => bits != {}
    case Recv(want, mode) => want != {} && Satisfied(want, mode, s.flags)
    case RecvBlock(w, at) => w.want != {} && !Satisfied(w.want, w.mode, s.flags) && at <= |s.ws|
    case Timeout(_) => true
    case Reset => true
  }

  function Expire(ws: seq<Waiter>, tid: Tid): seq<Waiter> {
    if ws == [] then [] else if ws[0].tid == tid then ws[1..] else [ws[0]] + Expire(ws[1..], tid)
  }

  function Next(s: State, a: Action): State
    requires Enabled(s, a)
  {
    match a
    case Send(bits) => var r := Scan(s.flags + bits, s.ws); State(r.flags, r.kept)
    case Recv(want, mode) => s.(flags := Cleared(want, mode, s.flags))
    case RecvBlock(w, at) => s.(ws := InsertAt(s.ws, at, w))
    case Timeout(tid) => s.(ws := Expire(s.ws, tid))
    case Reset => State({}, [])
  }

  lemma {:induction false} ExpireKeeps(flags: Flags, ws: seq<Waiter>, tid: Tid)
    requires NoneReady(flags, ws)
    ensures NoneReady(flags, Expire(ws, tid))
  {
    if ws != [] && ws[0].tid != tid {
      ExpireKeeps(flags, ws[1..], tid);
    }
  }

  /** No lost wake-up: no step leaves a thread suspended whose condition holds. */
  lemma StepLosesNone(s: State, a: Action)
    requires NoneReady(s.flags, s.ws) && Enabled(s, a)
    ensures NoneReady(Next(s, a).flags, Next(s, a).ws)
  {
    match a
    case Send(bits) => ScanLosesNone(s.flags + bits, s.ws);
    case Recv(want, mode) =>
      forall i | 0 <= i < |s.ws|
        ensures !Satisfied(s.ws[i].want, s.ws[i].mode, Cleared(want, mode, s.flags))
      {
        if Satisfied(s.ws[i].want, s.ws[i].mode, Cleared(want, mode, s.flags)) {
          SatisfiedMonotone(s.ws[i].want, s.ws[i].mode, Cleared(want, mode, s.flags), s.flags);
        }
      }
    case RecvBlock(w, at) =>
    case Timeout(tid) => ExpireKeeps(s.flags, s.ws, tid);
    case Reset =>
  }

  /** A waiter whose time is up leaves the list; a reset leaves neither flags nor waiters. */
  lemma {:induction false} LeavesExactly(ws: seq<Waiter>, tid: Tid, k: nat)
    requires k < |ws| && ws[k].tid == tid && forall j :: 0 <= j < k ==> ws[j].tid != tid
    ensures Expire(ws, tid) == ws[..k] + ws[k + 1..]
  {
    if k > 0 {
      LeavesExactly(ws[1..], tid, k - 1);
      assert ws[..k] + ws[k + 1..] == [ws[0]] + (ws[1..][..k - 1] + ws[1..][k..]);
    } else {
      assert ws[..0] + ws[1..] == ws[1..];
    }
  }

  /** A receiver that is satisfied takes the flags away exactly if it says so; one that waits does where it was put. */
  lemma RecvExactly(s: State, want: Flags, mode: Mode, w: Waiter, at: nat)
    ensures Enabled(s, Recv(want, mode)) ==> var s' := Next(s, Recv(want, mode));
      s'.ws == s.ws && forall x :: x in s'.flags <==> x in s.flags && !(mode.clear && x in want)
    ensures Enabled(s, RecvBlock(w, at)) ==> var s' := Next(s, RecvBlock(w, at));
      s'.flags == s.flags && at < |s'.ws| && s'.ws[at] == w && s'.ws[..at] + s'.ws[at + 1..] == s.ws
  {
    SatisfiedExactly(want, mode, s.flags);
  }

  /** What a send has to offer is what it brings and what was there. */
  lemma SendExactly(s: State, bits: Flags, k: nat)
    requires Enabled(s, Send(bits)) && k < |s.ws| && (forall x :: x in s.ws[k].want ==> x in s.flags || x in bits)
    requires s.ws[k].want != {} && (s.ws[k].mode.all || s.ws[k].mode.any) && forall j :: 0 <= j < k ==> !s.ws[j].mode.clear
    ensures exists j :: 0 <= j < |Scan(s.flags + bits, s.ws).woken| && Scan(s.flags + bits, s.ws).woken[j] == s.ws[k]
  {
    var flags := s.flags + bits;
    NothingCleared(flags, s.ws[..k]);
    assert forall j :: 0 <= j < k ==> s.ws[..k][j] == s.ws[j];
    SatisfiedExactly(s.ws[k].want, s.ws[k].mode, flags);
    var x :| x in s.ws[k].want;
    assert x in flags && s.ws[k].want * flags == s.ws[k].want;
    ScanExactly(flags, s.ws, k);
  }

  lemma {:induction false} NothingCleared(flags: Flags, ws: seq<Waiter>)
    requires forall j :: 0 <= j < |ws| ==> !ws[j].mode.clear
    ensures Scan(flags, ws).flags == flags
  {
    if ws != [] {
      assert !ws[0].mode.clear;
      NothingCleared(flags, ws[1..]);
    }
  }

  lemma ResetExactly(s: State)
    ensures forall x :: x !in Next(s, Reset).flags
    ensures forall w :: w !in Next(s, Reset).ws
  {
  }

  /** A receiver that wants something can always go on: at once exactly if it is satisfied, and otherwise by waiting. */
  lemma NeverStuck(s: State, w: Waiter)
    requires w.want != {}
    ensures Enabled(s, Recv(w.want, w.mode)) <==> Satisfied(w.want, w.mode, s.flags)
    ensures Enabled(s, RecvBlock(w, |s.ws|)) <==> !Enabled(s, Recv(w.want, w.mode))
  {
  }

  ghost predicate IsRun(s: State, steps: seq<Action>)
    decreases |steps|
  {
    steps != [] ==> Enabled(s, steps[0]) && IsRun(Next(s, steps[0]), steps[1..])
  }

  ghost function After(s: State, steps: seq<Action>): State
    requires IsRun(s, steps)
    decreases |steps|
  {
    if steps == [] then s else After(Next(s, steps[0]), steps[1..])
  }

  lemma {:induction false} EveryRun(s: State, steps: seq<Action>)
    requires NoneReady(s.flags, s.ws) && IsRun(s, steps)
    ensures NoneReady(After(s, steps).flags, After(s, steps).ws)
    decreases |steps|
  {
    if steps != [] {
      StepLosesNone(s, steps[0]);
      EveryRun(Next(s, steps[0]), steps[1..]);
    }
  }
}
