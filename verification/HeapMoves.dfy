// Reallocations that move their block, part by part, among calls of other threads: the
// three allocators allocate, copy and free as three calls, between which anything may
// happen that the common contract allows.
module HeapMoves {
  import opened Words
  import opened Seqs
  import opened HeapContract
  import HeapSpec
  import MemHeapLinks
  import SmallSpec
  import SmallTheorems
  import SmallHeap
  import SlabZones
  import SlabLaws
  import SlabRealloc

  type Tid = nat

  /** memheap.c, mem.c and slab.c allocate, copy and free as three calls, between which other threads run. What these do
      is any sequence of calls that meet the common contract, and of writes by owners to their own payloads.
      What a thread that moves payload old has done so far; was is what old held when the move began. */
  datatype Move =
    | Begun(old_: Payload, size: nat, was: seq<byte>)
    | Taken(old_: Payload, size: nat, was: seq<byte>, to: Payload)
    | Filled(old_: Payload, size: nat, was: seq<byte>, to: Payload)

  datatype State = State(live: Owned, ram: seq<byte>, moves: map<Tid, Move>)

  datatype Action =
    | Malloc(p: Payload, size: nat, ram: seq<byte>)   // ram: the memory afterwards
    | Free(p: Payload, ram: seq<byte>)
    | Write(p: Payload, ram: seq<byte>)
    | Begin(t: Tid, p: Payload, size: nat)
    | Take(t: Tid, p: Payload, ram: seq<byte>)
    | Refuse(t: Tid, ram: seq<byte>)
    | Copy(t: Tid)
    | Release(t: Tid, ram: seq<byte>)

  ghost predicate Inside(p: Payload, ram: seq<byte>) {
    0 <= p.at && 0 <= p.len && p.at + p.len <= |ram|
  }

  function Bytes(ram: seq<byte>, p: Payload): (b: seq<byte>)
    requires Inside(p, ram)
    ensures |b| == p.len
  {
    ram[p.at..p.at + p.len]
  }

  /** The payloads in live hold what they held. */
  ghost predicate Keeps(live: Owned, ram: seq<byte>, ram': seq<byte>) {
    |ram'| == |ram| && forall p :: p in live && Inside(p, ram) ==> Bytes(ram', p) == Bytes(ram, p)
  }

  /** How many bytes a move carries over. */
  function Carried(m: Move): int {
    Min(m.old_.len, m.size)
  }

  /** Payload p is on the move; its owner has passed it to rt_realloc, or has not got it yet. */
  predicate Claims(m: Move, p: Payload) {
    m.old_ == p || (!m.Begun? && m.to == p)
  }

  ghost predicate Claimed(moves: map<Tid, Move>, p: Payload) {
    exists t :: t in moves && Claims(moves[t], p)
  }

  ghost predicate Allocatable(s: State, p: Payload, size: nat) {
    Inside(p, s.ram) && Allocates(s.live, s.live + iset{p}, p, size)
  }

  ghost predicate Enabled(s: State, a: Action) {
    match a
    case Malloc(p, size, ram) => Allocatable(s, p, size) && Keeps(s.live, s.ram, ram)
    case Free(p, ram) => p in s.live && !Claimed(s.moves, p) && Keeps(s.live - iset{p}, s.ram, ram)
    case Write(p, ram) => p in s.live && !Claimed(s.moves, p) && Keeps(s.live - iset{p}, s.ram, ram)
    case Begin(t, p, size) => t !in s.moves && p in s.live && !Claimed(s.moves, p) && Inside(p, s.ram)
    case Take(t, p, ram) => t in s.moves && s.moves[t].Begun? && Allocatable(s, p, s.moves[t].size) && Keeps(s.live, s.ram, ram)
    case Refuse(t, ram) => t in s.moves && s.moves[t].Begun? && Keeps(s.live, s.ram, ram)
    case Copy(t) => t in s.moves && s.moves[t].Taken? && Inside(s.moves[t].old_, s.ram) && Inside(s.moves[t].to, s.ram)
                    && 0 <= Carried(s.moves[t]) <= s.moves[t].to.len
    case Release(t, ram) => t in s.moves && s.moves[t].Filled? && Keeps(s.live - iset{s.moves[t].old_}, s.ram, ram)
  }

  /** rt_memcpy of n bytes from one payload to another. */
  function Copied(ram: seq<byte>, to: Payload, from: Payload, n: nat): (r: seq<byte>)
    requires Inside(to, ram) && Inside(from, ram) && n <= to.len && n <= from.len
    ensures |r| == |ram|
  {
    ram[..to.at] + ram[from.at..from.at + n] + ram[to.at + n..]
  }

  function Next(s: State, a: Action): State
    requires Enabled(s, a)
  {
    match a
    case Malloc(p, _, ram) => s.(live := s.live + iset{p}, ram := ram)
    case Free(p, ram) => s.(live := s.live - iset{p}, ram := ram)
    case Write(_, ram) => s.(ram := ram)
    case Begin(t, p, size) => s.(moves := s.moves[t := Begun(p, size, Bytes(s.ram, p))])
    case Take(t, p, ram) =>
      var m := s.moves[t];
      State(s.live + iset{p}, ram, s.moves[t := Taken(m.old_, m.size, m.was, p)])
    case Refuse(t, ram) => s.(ram := ram, moves := s.moves - {t})
    case Copy(t) =>
      var m := s.moves[t];
      s.(ram := Copied(s.ram, m.to, m.old_, Carried(m)), moves := s.moves[t := Filled(m.old_, m.size, m.was, m.to)])
    case Release(t, ram) => State(s.live - iset{s.moves[t].old_}, ram, s.moves - {t})
  }

  // ---- what every step keeps

  /** A move knows what it carries, and when it has copied, the new payload begins with it. */
  ghost predicate Faithful(live: Owned, ram: seq<byte>, m: Move) {
    && m.old_ in live && Inside(m.old_, ram) && Bytes(ram, m.old_) == m.was
    && (!m.Begun? ==> m.to in live && m.to != m.old_ && Inside(m.to, ram) && m.to.len >= m.size)
    && (m.Filled? ==> Bytes(ram, m.to)[..Carried(m)] == m.was[..Carried(m)])
  }

  ghost predicate Inv(s: State) {
    && Disjoint(s.live) && (forall p :: p in s.live ==> Inside(p, s.ram))
    && (forall t :: t in s.moves ==> Faithful(s.live, s.ram, s.moves[t]))
    && (forall t, u, p :: t in s.moves && u in s.moves && Claims(s.moves[t], p) && Claims(s.moves[u], p) ==> t == u)
  }

  lemma ClaimsIn(s: State, t: Tid, p: Payload)
    requires Inv(s) && t in s.moves && Claims(s.moves[t], p)
    ensures p in s.live && Claimed(s.moves, p)
  {
    assert Faithful(s.live, s.ram, s.moves[t]);
  }

  /** A move goes on as long as nobody touches its two payloads. */
  lemma StaysFaithful(live: Owned, ram: seq<byte>, m: Move, kept: Owned, live': Owned, ram': seq<byte>)
    requires Faithful(live, ram, m) && Keeps(kept, ram, ram') && kept <= live'
    requires forall p :: Claims(m, p) ==> p in kept
    ensures Faithful(live', ram', m)
  {
    hide Bytes;
    assert Claims(m, m.old_);
    if !m.Begun? { assert Claims(m, m.to); }
  }

  lemma StillInside(live: Owned, ram: seq<byte>, ram': seq<byte>)
    requires (forall p :: p in live ==> Inside(p, ram)) && |ram'| == |ram|
    ensures forall p :: p in live ==> Inside(p, ram')
  {
  }

  /** A step that changes no move and leaves the payloads in kept alone. */
  lemma OthersStep(s: State, kept: Owned, s': State)
    requires Inv(s) && s'.moves == s.moves && Keeps(kept, s.ram, s'.ram) && kept <= s'.live
    requires (forall t, p :: t in s.moves && Claims(s.moves[t], p) ==> p in kept)
    requires Disjoint(s'.live) && forall p :: p in s'.live ==> Inside(p, s'.ram)
    ensures Inv(s')
  {
    hide Disjoint, Keeps, Faithful, Claims, Inside;
    forall t | t in s'.moves
      ensures Faithful(s'.live, s'.ram, s'.moves[t])
    {
      StaysFaithful(s.live, s.ram, s.moves[t], kept, s'.live, s'.ram);
    }
  }

  lemma CallerKeeps(s: State, a: Action)
    requires Inv(s) && Enabled(s, a) && (a.Malloc? || a.Free? || a.Write?)
    ensures Inv(Next(s, a))
  {
    var s', kept := Next(s, a), if a.Malloc? then s.live else s.live - iset{a.p};
    forall t, p | t in s.moves && Claims(s.moves[t], p)
      ensures p in kept
    {
      ClaimsIn(s, t, p);
    }
    StillInside(s.live, s.ram, s'.ram);
    OthersStep(s, kept, s');
  }

  /** A step of the thread t, on its move, that leaves the payloads in kept alone. */
  lemma MoverStep(s: State, kept: Owned, s': State, t: Tid)
    requires Inv(s) && Keeps(kept, s.ram, s'.ram) && kept <= s'.live
    requires forall u :: u != t ==> (u in s'.moves <==> u in s.moves) && (u in s.moves ==> s'.moves[u] == s.moves[u])
    requires forall u, p :: u in s.moves && u != t && Claims(s.moves[u], p) ==> p in kept
    requires t in s'.moves ==> Faithful(s'.live, s'.ram, s'.moves[t])
    requires t in s'.moves ==> forall p :: Claims(s'.moves[t], p) ==> (t in s.moves && Claims(s.moves[t], p)) || !Claimed(s.moves, p)
    requires Disjoint(s'.live) && forall p :: p in s'.live ==> Inside(p, s'.ram)
    ensures Inv(s')
  {
    hide Disjoint, Keeps, Faithful, Claims, Inside;
    forall u | u in s'.moves
      ensures Faithful(s'.live, s'.ram, s'.moves[u])
    {
      if u != t { StaysFaithful(s.live, s.ram, s.moves[u], kept, s'.live, s'.ram); }
    }
    forall u, p | u in s.moves && Claims(s.moves[u], p)
      ensures Claimed(s.moves, p)
    {
    }
  }

  /** The payloads that others have on the move, when t's are p and perhaps q. */
  lemma OthersClaim(s: State, t: Tid, out: Payload)
    requires Inv(s) && t in s.moves && Claims(s.moves[t], out)
    ensures forall u, p :: u in s.moves && u != t && Claims(s.moves[u], p) ==> p in s.live - iset{out}
  {
    forall u, p | u in s.moves && u != t && Claims(s.moves[u], p)
      ensures p in s.live - iset{out}
    {
      ClaimsIn(s, u, p);
    }
  }

  lemma AllClaimsLive(s: State)
    requires Inv(s)
    ensures forall u, p :: u in s.moves && Claims(s.moves[u], p) ==> p in s.live
  {
    forall u, p | u in s.moves && Claims(s.moves[u], p)
      ensures p in s.live
    {
      ClaimsIn(s, u, p);
    }
  }

  lemma BeginKeeps(s: State, a: Action)
    requires Inv(s) && Enabled(s, a) && (a.Begin? || a.Refuse?)
    ensures Inv(Next(s, a))
  {
    AllClaimsLive(s);
    StillInside(s.live, s.ram, Next(s, a).ram);
    MoverStep(s, s.live, Next(s, a), a.t);
  }

  /** What is not live is not on the move. */
  lemma NewUnclaimed(s: State, p: Payload)
    requires Inv(s) && p !in s.live
    ensures !Claimed(s.moves, p)
  {
    AllClaimsLive(s);
  }

  lemma TakeKeeps(s: State, a: Action)
    requires Inv(s) && Enabled(s, a) && a.Take?
    ensures Inv(Next(s, a))
  {
    var s', m := Next(s, a), s.moves[a.t];
    AllClaimsLive(s);
    NewUnclaimed(s, a.p);
    StillInside(s.live + iset{a.p}, s.ram, s'.ram);
    assert Claims(m, m.old_);
    StaysFaithful(s.live, s.ram, m, s.live, s'.live, s'.ram);
    MoverStep(s, s.live, s', a.t);
  }

  lemma CopyApart(ram: seq<byte>, to: Payload, from: Payload, n: nat, p: Payload)
    requires Inside(to, ram) && Inside(from, ram) && Inside(p, ram) && n <= to.len && n <= from.len && HeapContract.Apart(p, to)
    ensures Bytes(Copied(ram, to, from, n), p) == Bytes(ram, p)
  {
    var r := Copied(ram, to, from, n);
    assert forall k :: p.at <= k < p.at + p.len ==> r[k] == ram[k];
  }

  lemma CopyElsewhere(ram: seq<byte>, to: Payload, from: Payload, n: nat, live: Owned)
    requires Disjoint(live) && (forall p :: p in live ==> Inside(p, ram)) && to in live && from in live && n <= to.len && n <= from.len
    ensures Keeps(live - iset{to}, ram, Copied(ram, to, from, n))
    ensures Bytes(Copied(ram, to, from, n), to)[..n] == Bytes(ram, from)[..n]
  {
    var r := Copied(ram, to, from, n);
    forall p | p in live - iset{to}
      ensures Bytes(r, p) == Bytes(ram, p)
    {
      assert HeapContract.Apart(p, to);
      CopyApart(ram, to, from, n, p);
    }
    assert r[to.at..to.at + n] == ram[from.at..from.at + n];
    assert Bytes(r, to)[..n] == r[to.at..to.at + n];
  }

  lemma CopyKeeps(s: State, a: Action)
    requires Inv(s) && Enabled(s, a) && a.Copy?
    ensures Inv(Next(s, a))
  {
    var s', m := Next(s, a), s.moves[a.t];
    hide Disjoint;
    assert Faithful(s.live, s.ram, m) && Claims(m, m.to);
    OthersClaim(s, a.t, m.to);
    CopyElsewhere(s.ram, m.to, m.old_, Carried(m), s.live);
    hide Copied;
    StillInside(s.live, s.ram, s'.ram);
    MoverStep(s, s.live - iset{m.to}, s', a.t);
  }

  lemma ReleaseKeeps(s: State, a: Action)
    requires Inv(s) && Enabled(s, a) && a.Release?
    ensures Inv(Next(s, a))
  {
    var s', m := Next(s, a), s.moves[a.t];
    assert Claims(m, m.old_);
    OthersClaim(s, a.t, m.old_);
    StillInside(s.live, s.ram, s'.ram);
    MoverStep(s, s.live - iset{m.old_}, s', a.t);
  }

  /** Whatever the threads do between the parts of a move, the move carries what its payload held when it began. */
  lemma StepKeepsInv(s: State, a: Action)
    requires Inv(s) && Enabled(s, a)
    ensures Inv(Next(s, a))
  {
    hide Inv, Enabled, Next;
    match a
    case Begin(_, _, _) => BeginKeeps(s, a);
    case Refuse(_, _) => BeginKeeps(s, a);
    case Take(_, _, _) => TakeKeeps(s, a);
    case Copy(_) => CopyKeeps(s, a);
    case Release(_, _) => ReleaseKeeps(s, a);
    case _ => CallerKeeps(s, a);
  }

  /** A move that has its new payload can always go on. */
  lemma NeverStuck(s: State, t: Tid)
    requires Inv(s) && t in s.moves && s.moves[t].Taken?
    ensures Enabled(s, Copy(t))
  {
    assert Faithful(s.live, s.ram, s.moves[t]);
  }

  // ---- whole moves

  ghost predicate IsRun(s: State, steps: seq<Action>)
    decreases |steps|
  {
    steps != [] ==> Enabled(s, steps[0]) && IsRun(Next(s, steps[0]), steps[1..])
  }

  ghost function After(s: State, steps: seq<Action>): State
    requires IsRun(s, steps)
    decreases |steps|
  {
    if steps == [] then s else After(Next(s, steps[0]), steps[1..])
  }

  /** The step with which thread t leaves rt_realloc. */
  predicate Leaves(a: Action, t: Tid) {
    (a.Refuse? || a.Release?) && a.t == t
  }

  /** What else a step may do to the move of thread t: go on to its payload, once. */
  predicate Follows(m: Move, m': Move, a: Action, t: Tid) {
    && m'.old_ == m.old_ && m'.size == m.size && m'.was == m.was
    && (Takes(a, t) <==> m.Begun? && !m'.Begun?)
    && (Takes(a, t) ==> m'.to == a.p)
    && (!m.Begun? ==> !m'.Begun? && m'.to == m.to)
  }

  predicate Takes(a: Action, t: Tid) {
    a.Take? && a.t == t
  }

  /** q is what the call that m belongs to has taken, or will take, and the only payload it takes. */
  ghost predicate TakesOnly(m: Move, steps: seq<Action>, t: Tid, q: Payload) {
    && (if m.Begun? then exists k :: 0 <= k < |steps| && Takes(steps[k], t) else m.to == q)
    && forall k :: 0 <= k < |steps| && Takes(steps[k], t) ==> m.Begun? && steps[k].p == q
  }

  /** Live payload q of size bytes or more begins with these bytes. */
  ghost predicate Arrived(s: State, q: Payload, size: nat, bytes: seq<byte>) {
    q in s.live && q.len >= size && Inside(q, s.ram) && bytes <= Bytes(s.ram, q)
  }

  lemma StaysOnTheMove(s: State, a: Action, t: Tid)
    requires Enabled(s, a) && t in s.moves && !Leaves(a, t)
    ensures t in Next(s, a).moves && Follows(s.moves[t], Next(s, a).moves[t], a, t)
  {
  }

  lemma Arrives(s: State, a: Action)
    requires Inv(s) && Enabled(s, a) && a.Release?
    ensures var m := s.moves[a.t];
      && 0 <= Carried(m) <= |m.was| && Arrived(Next(s, a), m.to, m.size, m.was[..Carried(m)]) && m.old_ !in Next(s, a).live
      && !m.Begun? && TakesOnly(m, [a], a.t, m.to)
  {
    var m, s' := s.moves[a.t], Next(s, a);
    assert Faithful(s.live, s.ram, m);
    StillInside(s.live, s.ram, s'.ram);
    assert m.to in s'.live && Bytes(s'.ram, m.to) == Bytes(s.ram, m.to);
    assert m.was[..Carried(m)] <= Bytes(s'.ram, m.to);
  }

  /** From the rest of a run to the run with the step in front of it. */
  lemma TakesOneMore(m: Move, m': Move, steps: seq<Action>, t: Tid, q: Payload)
    requires steps != [] && Follows(m, m', steps[0], t) && TakesOnly(m', steps[1..], t, q)
    ensures TakesOnly(m, steps, t, q)
  {
    forall k | 0 <= k < |steps| && Takes(steps[k], t)
      ensures m.Begun? && steps[k].p == q
    {
      if k > 0 { assert steps[1..][k - 1] == steps[k]; }
    }
    if m.Begun? && m'.Begun? {
      var k :| 0 <= k < |steps[1..]| && Takes(steps[1..][k], t);
      assert Takes(steps[k + 1], t);
    }
  }

  lemma {:induction false} MoveCarries(s: State, steps: seq<Action>, t: Tid) returns (q: Payload)
    requires Inv(s) && IsRun(s, steps) && t in s.moves
    requires steps != [] && steps[|steps| - 1].Release? && steps[|steps| - 1].t == t
    requires forall k :: 0 <= k < |steps| - 1 ==> !Leaves(steps[k], t)
    ensures var m := s.moves[t];
      && 0 <= Carried(m) <= |m.was| && Arrived(After(s, steps), q, m.size, m.was[..Carried(m)]) && m.old_ !in After(s, steps).live
      && TakesOnly(m, steps, t, q)
    decreases |steps|
  {
    hide Inv, Enabled, Next, Arrived, TakesOnly, Follows;
    var a, s' := steps[0], Next(s, steps[0]);
    StepKeepsInv(s, a);
    if |steps| == 1 {
      Arrives(s, a);
      assert After(s', steps[1..]) == s' && steps == [a];
      q := s.moves[t].to;
    } else {
      StaysOnTheMove(s, a, t);
      q := MoveCarries(s', steps[1..], t);
      TakesOneMore(s.moves[t], s'.moves[t], steps, t, q);
      SameLoad(s.moves[t], s'.moves[t], a, t);
    }
  }

  lemma SameLoad(m: Move, m': Move, a: Action, t: Tid)
    requires Follows(m, m', a, t)
    ensures Carried(m') == Carried(m) && m'.was == m.was && m'.size == m.size && m'.old_ == m.old_
  {
  }

  /** A reallocation that moves its payload p, from its first part to its last, whatever other threads do in between: it takes
      exactly one payload q, and in the end p is free and q is live, of the new size or more, and begins with what p held when
      the call began, as far as it fits. */
  lemma EveryMove(s: State, steps: seq<Action>, t: Tid, p: Payload, size: nat) returns (q: Payload)
    requires Inv(s) && IsRun(s, steps) && |steps| >= 2 && steps[0] == Begin(t, p, size)
    requires steps[|steps| - 1].Release? && steps[|steps| - 1].t == t
    requires forall k :: 0 <= k < |steps| - 1 ==> !Leaves(steps[k], t)
    ensures Inside(p, s.ram) && p !in After(s, steps).live
    ensures Arrived(After(s, steps), q, size, Bytes(s.ram, p)[..Min(p.len, size)])
    ensures (exists k :: 0 <= k < |steps| && Takes(steps[k], t)) && forall k :: 0 <= k < |steps| && Takes(steps[k], t) ==> steps[k].p == q
  {
    StepKeepsInv(s, steps[0]);
    hide Inv, Arrived;
    q := MoveCarries(Next(s, steps[0]), steps[1..], t);
    var k :| 0 <= k < |steps[1..]| && Takes(steps[1..][k], t);
    assert Takes(steps[k + 1], t);
    forall j | 0 <= j < |steps| && Takes(steps[j], t)
      ensures steps[j].p == q
    {
      assert steps[1..][j - 1] == steps[j];
    }
  }

  // ---- the three allocators leave live payloads alone

  lemma MemHeapKeeps(v: HeapSpec.View, start: int, end: int, ram: seq<byte>, ram': seq<byte>)
    requires HeapSpec.Valid(v, start, end) && MemHeapLinks.KeepsPayload(ram, ram', v.blocks) && |ram'| == |ram|
    ensures Keeps(MemHeapLive(v), ram, ram')
  {
    forall p | p in MemHeapLive(v) && Inside(p, ram)
      ensures Bytes(ram', p) == Bytes(ram, p)
    {
      var i :| InMemHeap(v, i, p);
      assert MemHeapLinks.SameBytes(ram, ram', p.at, p.len);
    }
  }

  lemma SmallKeeps(bs: seq<SmallSpec.Block>, ram: seq<byte>, ram': seq<byte>, x: SmallSpec.Block)
    requires SmallHeap.KeepsLive(bs, ram, ram', x) && !SmallTheorems.Live(bs, x) && |ram'| == |ram|
    ensures Keeps(SmallLive(bs), ram, ram')
  {
    hide SmallTheorems.Live;
    forall p | p in SmallLive(bs) && Inside(p, ram)
      ensures Bytes(ram', p) == Bytes(ram, p)
    {
      var b :| SmallTheorems.Live(bs, b) && p == SmallPayload(b);
      assert SmallHeap.SameBytes(ram, ram', b.start + SmallSpec.HEADER, b.end);
    }
  }

  lemma SlabKeeps(s: SlabZones.State, ram: seq<byte>, ram': seq<byte>)
    requires SlabRealloc.Keeps(s, ram, ram', None)
    ensures Keeps(SlabLive(s), ram, ram')
  {
    hide SlabLaws.Live;
    forall p | p in SlabLive(s) && Inside(p, ram)
      ensures Bytes(ram', p) == Bytes(ram, p)
    {
      assert SlabLaws.Live(s, p.at, p.len);
      assert forall k :: p.at <= k < p.at + p.len ==> ram'[k] == ram[k];
    }
  }
}
