/** Every kind of step of the simple `Arc` under the weak memory model keeps the invariant. */
module SimpleClocksSteps {
  import opened Basics
  import opened Sums
  import opened Usize
  import opened TwoClocks
  import opened SimpleClocks
  import opened SimpleClocksBorrows
  import opened SimpleClocksRelation
  import opened SimpleClocksInv
  import A = ArcClocks

  // ----- Borrows -----

  lemma SharedOk(s: State, t: nat, h: nat)
    requires Borrowed(s) && DataOk(s) && t < |s.threads| && s.threads[t].pc.Calm? && CanShare(s, h)
    ensures DataOk(BeginSharedStep(s, t, h))
  {
    var s' := BeginSharedStep(s, t, h);
    assert RoleOk(s, t);
    StillKnown(s, s', t);
    DataKept(s, s', t, |s.handles|);
  }

  lemma InvBeginShared(s: State, a: A.State, t: nat, h: nat)
    requires Inv(s, a) && t < |s.threads| && s.threads[t].pc.Calm? && CanShare(s, h)
    ensures Inv(BeginSharedStep(s, t, h), A.BeginSharedStep(a, t, h))
  {
    assert ThreadRelated(s.threads[t], a.threads[t]);
    A.InvBeginShared(a, t, h);
    SimShare(s, a, t, h);
    SharedInOrder(s, t, h);
    BorrowShared(s, t, h);
    SharedOk(s, t, h);
  }

  lemma EndSharedOk(s: State, t: nat, h: nat)
    requires Borrowed(s) && DataOk(s) && t < |s.threads| && s.threads[t].pc.Calm?
    requires h in s.threads[t].shared && h < |s.handles|
    ensures DataOk(EndSharedStep(s, t, h))
  {
    var s' := EndSharedStep(s, t, h);
    assert RoleOk(s, t);
    forall e: nat, g: nat | ThreadCovers(s, t, g, e)
      ensures Covered(s', e)
    {
      assert if g == h then HandleCovers(s', h, e) else ThreadCovers(s', t, g, e);
    }
    forall e: nat | HandleCovers(s, h, e) ensures Covered(s', e) { assert HandleCovers(s', h, e); }
    DataKept(s, s', t, h);
  }

  lemma InvEndShared(s: State, a: A.State, t: nat, h: nat)
    requires Inv(s, a) && t < |s.threads| && s.threads[t].pc.Calm? && h in s.threads[t].shared
    ensures Inv(EndSharedStep(s, t, h), A.EndSharedStep(a, t, h))
  {
    assert ThreadRelated(s.threads[t], a.threads[t]) && BorrowsOk(s, t);
    A.InvEndShared(a, t, h);
    SimEndShare(s, a, t, h);
    SharedInOrder(s, t, h);
    BorrowShared(s, t, h);
    EndSharedOk(s, t, h);
  }

  lemma OwnOk(s: State, t: nat, h: nat, kind: Kind, pc: Pc)
    requires Borrowed(s) && DataOk(s) && t < |s.threads| && s.threads[t].pc.Calm? && CanOwn(s, h, kind)
    requires pc == Dropping(h) || pc == DropAlloc(h) || pc == GmLoad(h)
    ensures DataOk(BeginOwnStep(s, t, h, kind, pc))
  {
    var s' := BeginOwnStep(s, t, h, kind, pc);
    assert RoleOk(s, t);
    StillKnown(s, s', t);
    DataKept(s, s', t, |s.handles|);
  }

  lemma InvLeave(s: State, a: A.State, t: nat, h: nat, kind: Kind, pc: Pc)
    requires Inv(s, a) && t < |s.threads| && s.threads[t].pc.Calm? && CanOwn(s, h, kind)
    requires (kind == Arc && pc == Dropping(h)) || (kind == Weak && pc == DropAlloc(h))
    ensures Inv(BeginOwnStep(s, t, h, kind, pc), A.BeginSharedStep(a, t, h))
  {
    assert ThreadRelated(s.threads[t], a.threads[t]);
    A.InvBeginShared(a, t, h);
    SimLeave(s, a, t, h, kind, pc);
    OwnInOrder(s, t, h, kind, pc);
    BorrowOwn(s, t, h, kind, pc);
    OwnOk(s, t, h, kind, pc);
  }

  lemma InvAsk(s: State, a: A.State, t: nat, h: nat)
    requires Inv(s, a) && t < |s.threads| && s.threads[t].pc.Calm? && CanOwn(s, h, Arc)
    ensures Inv(BeginOwnStep(s, t, h, Arc, GmLoad(h)), A.BeginOwnStep(a, t, h, A.GmLoad(h)))
  {
    assert ThreadRelated(s.threads[t], a.threads[t]);
    A.InvBeginOwn(a, t, h, A.GmLoad(h));
    SimAsk(s, a, t, h);
    OwnInOrder(s, t, h, Arc, GmLoad(h));
    BorrowOwn(s, t, h, Arc, GmLoad(h));
    OwnOk(s, t, h, Arc, GmLoad(h));
  }

  // ----- Accesses -----

  /** What the one-counter `Arc` says about an access through the borrowed handle `h`. */
  lemma Accessed(s: State, a: A.State, t: nat, h: nat)
    requires Inv(s, a) && t < |s.threads| && h in SharedImage(s.threads[t])
    requires PcImage(s.threads[t].pc) == A.Calm && !s.threads[t].pc.Aborting?
    ensures A.Inv(A.AccessStep(a, t, h))
    ensures s.freed == 0 && s.writes <= s.threads[t].clock.events
  {
    assert ThreadRelated(s.threads[t], a.threads[t]) && A.Uses(a.threads[t], h);
    A.LiveIsCounted(a, t, h);
    A.WritesSeen(a, t, h);
    A.InvAccess(a, t, h);
  }

  lemma ReadOk(s: State, t: nat, h: nat)
    requires Borrowed(s) && DataOk(s) && t < |s.threads| && s.threads[t].pc.Calm?
    requires h in s.threads[t].shared && IsLive(s, h, Arc)
    requires s.freed == 0 && s.writes <= s.threads[t].clock.events
    ensures DataOk(ReadStep(s, t, h))
  {
    var s' := ReadStep(s, t, h);
    assert RoleOk(s, t);
    DataLives(s, h);
    StillKnown(s, s', t);
    assert ThreadCovers(s', t, h, s.events);
    DataKept(s, s', t, |s.handles|);
  }

  lemma ReadRelated(s: State, a: A.State, t: nat, h: nat)
    requires Related(s, a) && Borrowed(s) && t < |s.threads| && s.threads[t].pc.Calm?
    requires h in s.threads[t].shared && IsLive(s, h, Arc)
    ensures Related(ReadStep(s, t, h), A.AccessStep(a, t, h)) && Borrowed(ReadStep(s, t, h))
  {
    SimAccess(s, ReadStep(s, t, h), a, t, h);
    Steady(s, ReadStep(s, t, h), t);
  }

  lemma InvRead(s: State, a: A.State, t: nat, h: nat)
    requires Inv(s, a) && t < |s.threads| && s.threads[t].pc.Calm? && h in s.threads[t].shared && IsLive(s, h, Arc)
    ensures Inv(ReadStep(s, t, h), A.AccessStep(a, t, h))
  {
    Accessed(s, a, t, h);
    ReadRelated(s, a, t, h);
    AccessesInOrder(s, t, h, Calm);
    ReadOk(s, t, h);
  }

  // ----- The second counter -----

  lemma NewCounted(s: State, s': State, t: nat, x: Handle)
    requires OneThread(s, s', t) && s'.handles == s.handles + [x]
    ensures Arcs(s') + Rising(s.threads[t]) == Arcs(s) + Rising(s'.threads[t]) + ArcShare(x)
  {
    SumUpdate(s.threads, t, s'.threads[t], Rising);
    SumAppend(s.handles, x, ArcShare);
  }

  /** A new handle of thread `t`, which goes on to work through the handles that it has borrowed. */
  lemma NewKept(s: State, s': State, t: nat, x: Handle)
    requires Borrowed(s) && DataOk(s) && OneThread(s, s', t) && s'.data == s.data && s'.handles == s.handles + [x]
    requires (s.threads[t].pc.Calm? && ArcShare(x) == 0) || (s.threads[t].pc.UpAlloc? && ArcShare(x) == 1)
    requires s'.threads[t].pc.Calm? || s'.threads[t].pc.Cloning? || s'.threads[t].pc.Aborting?
    requires s'.threads[t].shared == s.threads[t].shared && Leq(s.threads[t].clock, s'.threads[t].clock)
    requires s'.last == s.last && s'.dropped == s.dropped && !s'.bad
    requires s'.touched == s.touched && s'.writes == s.writes && s.events <= s'.events
    ensures DataOk(s')
  {
    assert RoleOk(s, t);
    NewCounted(s, s', t, x);
    RolesKept(s, s', t);
    StillKnown(s, s', t);
    OthersArcs(s, s', t, |s.handles|);
    CoverKept(s, s', t, |s.handles|);
  }

  lemma NewOk(s: State, t: nat, kind: Kind, pc: Pc)
    requires Borrowed(s) && InOrder(s) && DataOk(s) && t < |s.threads| && s.freed == 0 && kind != Lost
    requires (s.threads[t].pc.Calm? && kind != Arc) || (s.threads[t].pc.UpAlloc? && kind == Arc)
    requires pc.Calm? || pc.Cloning?
    ensures DataOk(WeakCloneStep(s, t, kind, pc))
  {
    var s' := WeakCloneStep(s, t, kind, pc);
    NewKept(s, s', t, s'.handles[|s.handles|]);
  }

  lemma InvNew(s: State, a: A.State, t: nat, h: nat, kind: Kind, pc: Pc)
    requires Inv(s, a) && t < |s.threads| && h in s.threads[t].shared && !s.aborted && kind != Lost
    requires (s.threads[t].pc.Calm? && kind != Arc) || (s.threads[t].pc.UpAlloc? && kind == Arc)
    requires pc == Calm || (kind == Half && pc == Cloning(h, |s.handles|) && IsLive(s, h, Arc))
    ensures Inv(WeakCloneStep(s, t, kind, pc), A.CloneStep(a, t, h))
  {
    assert ThreadRelated(s.threads[t], a.threads[t]);
    BlockLives(s, a, t, h);
    A.InvClone(a, t, h);
    SimClone(s, a, t, h, kind, pc);
    OrderNew(s, t, kind, pc);
    BorrowNew(s, t, kind, pc);
    NewOk(s, t, kind, pc);
  }

  lemma DropAllocOk(s: State, t: nat, h: nat)
    requires Borrowed(s) && InOrder(s) && DataOk(s) && t < |s.threads| && s.threads[t].pc == DropAlloc(h)
    requires s.freed == 0
    ensures DataOk(DropAllocStep(s, t, h))
  {
    var s' := DropAllocStep(s, t, h);
    assert BorrowsOk(s, t) && RoleOk(s, t);
    StillKnown(s, s', t);
    DataKept(s, s', t, h);
  }

  lemma HandoverInv(s: State, a: A.State, t: nat, h: nat)
    requires Inv(s, a) && t < |s.threads| && s.threads[t].pc == DropAlloc(h)
    ensures A.Inv(A.DropStep(Handover(a, t, h), t, h)) && s.freed == 0
  {
    assert ThreadRelated(s.threads[t], a.threads[t]) && A.Uses(a.threads[t], h);
    A.LiveIsCounted(a, t, h);
    HandedOver(s, a, t, h);
    A.InvEndShared(a, t, h);
    A.InvBeginOwn(A.EndSharedStep(a, t, h), t, h, A.Dropping(h));
    A.InvDrop(Handover(a, t, h), t, h);
  }

  lemma InvDropAlloc(s: State, a: A.State, t: nat, h: nat)
    requires Inv(s, a) && t < |s.threads| && s.threads[t].pc == DropAlloc(h)
    ensures Inv(DropAllocStep(s, t, h), A.DropStep(Handover(a, t, h), t, h))
  {
    HandoverInv(s, a, t, h);
    SimDropAlloc(s, a, t, h);
    AllocInOrder(s, t, h);
    BorrowDrop(s, t, h);
    DropAllocOk(s, t, h);
  }

  // ----- The first counter -----

  /** The first counter moves while it is not 0. */
  lemma DataMoved(s: State, s': State, t: nat, x: nat)
    requires Borrowed(s) && DataOk(s) && OneThread(s, s', t) && |s'.handles| == |s.handles|
    requires |s'.data| == |s.data| + 1 && s'.data[..|s.data|] == s.data
    requires LastData(s).value > 0 && LastData(s').value < MAX && Balanced(s', Arcs(s'))
    requires LastData(s).clock.events <= LastData(s').clock.events
    requires if x < |s.handles| then s'.handles == s.handles[x := s'.handles[x]] else s'.handles == s.handles
    requires IsLive(s, x, Arc) ==> IsLive(s', x, Arc) || Owns(s.threads[t].pc, x)
    requires s'.last.Nobody? || s'.last == By(t)
    requires RoleOk(s', t) && !s'.bad
    requires forall e: nat | HandleCovers(s, x, e) :: Covered(s', e)
    requires forall e: nat, h: nat | ThreadCovers(s, t, h, e) :: Covered(s', e)
    requires s'.touched == s.touched && s.events <= s'.events && s'.writes == s.writes
    ensures DataOk(s')
  {
    forall i | 0 <= i < |s'.data|
      ensures s'.data[i].value < MAX && (i < |s'.data| - 1 ==> s'.data[i].value > 0)
    {
      assert i < |s.data| ==> s'.data[i] == s.data[i];
    }
    RolesKept(s, s', t);
    OthersArcs(s, s', t, x);
    CoverKept(s, s', t, x);
  }

  /** The count goes up by one, for handle `x` or for an upgrade of thread `t`. */
  lemma DataRaised(s: State, s': State, t: nat, x: nat)
    requires Borrowed(s) && DataOk(s) && OneThread(s, s', t) && |s'.handles| == |s.handles|
    requires |s'.data| == |s.data| + 1 && s'.data[..|s.data|] == s.data
    requires LastData(s').clock == LastData(s).clock
    requires 0 < LastData(s).value && LastData(s').value == LastData(s).value + 1 < MAX
    requires if x < |s.handles| then s'.handles == s.handles[x := s'.handles[x]] else s'.handles == s.handles
    requires x < |s.handles| ==> ArcShare(s.handles[x]) == 0
    requires (if x < |s.handles| then ArcShare(s'.handles[x]) else 0) + Rising(s'.threads[t])
             == Rising(s.threads[t]) + 1
    requires !s.threads[t].pc.DropFence? && !s.threads[t].pc.DropT?
    requires s'.threads[t].pc.Calm? || s'.threads[t].pc.UpAlloc? || s'.threads[t].pc.Aborting?
    requires forall h: nat | Uses(s.threads[t], h) && h != x :: Uses(s'.threads[t], h)
    requires Leq(s.threads[t].clock, s'.threads[t].clock)
    requires s'.last == s.last && s'.dropped == s.dropped && !s'.bad
    requires s'.touched == s.touched && s.events <= s'.events && s'.writes == s.writes
    ensures DataOk(s')
  {
    assert RoleOk(s, t);
    CountKept(s, s', t, x);
    StillKnown(s, s', t);
    DataMoved(s, s', t, x);
  }

  lemma CloneDataOk(s: State, t: nat, h: nat, g: nat)
    requires Borrowed(s) && InOrder(s) && DataOk(s) && t < |s.threads| && s.threads[t].pc == Cloning(h, g)
    requires s.freed == 0 && LastData(s).value + 1 < MAX
    ensures DataOk(CloneDataStep(s, t, g))
  {
    assert BorrowsOk(s, t);
    DataLives(s, h);
    DataRaised(s, CloneDataStep(s, t, g), t, g);
  }

  lemma CloneDataRelated(s: State, a: A.State, t: nat, h: nat, g: nat)
    requires InOrder(s) && Borrowed(s) && Related(s, a) && t < |s.threads| && s.threads[t].pc == Cloning(h, g)
    ensures Related(CloneDataStep(s, t, g), A.AccessStep(a, t, h))
  {
    var s' := CloneDataStep(s, t, g);
    assert BorrowsOk(s, t) && Owns(s.threads[t].pc, g) && OwnedOk(s, t, g);
    assert Leq(Tick(s.threads[t].clock, s.events), s'.threads[t].clock);
    assert s'.handles == s.handles[g := s'.handles[g]] && Leq(s.handles[g].base, s'.handles[g].base);
    SimAccess(s, s', a, t, h);
  }

  lemma InvCloneData(s: State, a: A.State, t: nat, h: nat, g: nat)
    requires Inv(s, a) && t < |s.threads| && s.threads[t].pc == Cloning(h, g)
    ensures Inv(CloneDataStep(s, t, g), A.AccessStep(a, t, h))
  {
    assert BorrowsOk(s, t);
    Accessed(s, a, t, h);
    Room(s, a, t, g);
    CloneDataRelated(s, a, t, h, g);
    DataInOrder(s, t, g);
    BorrowCloned(s, t, h, g);
    CloneDataOk(s, t, h, g);
  }

  lemma BeginUpgradeOk(s: State, t: nat, h: nat)
    requires Borrowed(s) && DataOk(s) && t < |s.threads| && s.threads[t].pc.Calm?
    requires h in s.threads[t].shared && IsLive(s, h, Weak)
    ensures Borrowed(BeginUpgradeStep(s, t, h)) && DataOk(BeginUpgradeStep(s, t, h))
  {
    var s' := BeginUpgradeStep(s, t, h);
    assert RoleOk(s, t);
    Steady(s, s', t);
    StillKnown(s, s', t);
    DataKept(s, s', t, |s.handles|);
  }

  lemma InvBeginUpgrade(s: State, a: A.State, t: nat, h: nat)
    requires Inv(s, a) && t < |s.threads| && s.threads[t].pc.Calm? && h in s.threads[t].shared && IsLive(s, h, Weak)
    ensures Inv(BeginUpgradeStep(s, t, h), a)
  {
    var s' := BeginUpgradeStep(s, t, h);
    SimQuiet(s, s', a, t);
    OrderMoved(s, s', t);
    BeginUpgradeOk(s, t, h);
  }

  lemma UpLoadOk(s: State, t: nat, h: nat, i: nat)
    requires Borrowed(s) && DataOk(s) && t < |s.threads| && (s.threads[t].pc.UpLoad? || s.threads[t].pc.UpCas?)
    requires s.threads[t].clock.data <= i < |s.data| && s.freed == 0
    ensures DataOk(UpLoadStep(s, t, h, i))
  {
    var s' := UpLoadStep(s, t, h, i);
    assert RoleOk(s, t);
    StillKnown(s, s', t);
    DataKept(s, s', t, |s.handles|);
  }

  lemma UpLoadRelated(s: State, a: A.State, t: nat, h: nat, i: nat)
    requires Related(s, a) && t < |s.threads| && (s.threads[t].pc.UpLoad? || s.threads[t].pc.UpCas?)
    requires h in s.threads[t].shared && s.threads[t].clock.data <= i < |s.data|
    ensures Related(UpLoadStep(s, t, h, i), A.AccessStep(a, t, h))
  {
    SimAccess(s, UpLoadStep(s, t, h, i), a, t, h);
  }

  lemma InvUpLoad(s: State, a: A.State, t: nat, h: nat, n: nat, i: nat)
    requires Inv(s, a) && t < |s.threads| && (s.threads[t].pc == UpLoad(h) || s.threads[t].pc == UpCas(h, n))
    requires s.threads[t].clock.data <= i < |s.data|
    ensures Inv(UpLoadStep(s, t, h, i), A.AccessStep(a, t, h))
  {
    assert BorrowsOk(s, t);
    Accessed(s, a, t, h);
    UpLoadRelated(s, a, t, h, i);
    UpgradeInOrder(s, t, h, n, i);
    BorrowUpgrade(s, t, h, n, i);
    UpLoadOk(s, t, h, i);
  }

  lemma UpExchangeOk(s: State, t: nat, h: nat, n: nat)
    requires Borrowed(s) && InOrder(s) && DataOk(s) && t < |s.threads| && s.threads[t].pc == UpCas(h, n)
    requires s.freed == 0 && LastData(s).value == n < MAX - 1
    ensures DataOk(UpExchange(s, t, h, n))
  {
    assert RoleOk(s, t);
    DataRaised(s, UpExchange(s, t, h, n), t, |s.handles|);
  }

  lemma UpExchangeRelated(s: State, a: A.State, t: nat, h: nat, n: nat)
    requires InOrder(s) && Related(s, a) && t < |s.threads| && s.threads[t].pc == UpCas(h, n)
    requires h in s.threads[t].shared && LastData(s).value == n
    ensures Related(UpExchange(s, t, h, n), A.AccessStep(a, t, h))
  {
    SimAccess(s, UpExchange(s, t, h, n), a, t, h);
  }

  lemma InvUpExchange(s: State, a: A.State, t: nat, h: nat, n: nat)
    requires Inv(s, a) && t < |s.threads| && s.threads[t].pc == UpCas(h, n) && LastData(s).value == n
    ensures Inv(UpExchange(s, t, h, n), A.AccessStep(a, t, h))
  {
    assert BorrowsOk(s, t);
    Accessed(s, a, t, h);
    Room(s, a, t, h);
    UpExchangeRelated(s, a, t, h, n);
    UpgradeInOrder(s, t, h, n, 0);
    BorrowUpgrade(s, t, h, n, 0);
    UpExchangeOk(s, t, h, n);
  }

  /** Whatever the dropper of an `Arc` knows is in the message of its decrement. */
  lemma DropReleases(s: State, t: nat, h: nat)
    requires InOrder(s) && Borrowed(s) && t < |s.threads| && s.threads[t].pc == Dropping(h)
    ensures var s' := DropStep(s, t, h);
      && s'.data != []
      && (forall e: nat | HandleCovers(s, h, e) :: Covered(s', e))
      && (forall e: nat, g: nat | ThreadCovers(s, t, g, e) :: Covered(s', e))
  {
    assert BorrowsOk(s, t) && Owns(s.threads[t].pc, h) && OwnedOk(s, t, h);
    var s' := DropStep(s, t, h);
    assert s.threads[t].clock.events <= LastData(s').clock.events;
  }

  lemma DropCounted(s: State, t: nat, h: nat)
    requires DataOk(s) && t < |s.threads| && s.threads[t].pc == Dropping(h) && IsLive(s, h, Arc)
    ensures var s' := DropStep(s, t, h); s'.data != [] && Balanced(s', Arcs(s')) && LastData(s').value < MAX
  {
    DataLives(s, h);
    CountKept(s, DropStep(s, t, h), t, h);
  }

  lemma DropOk(s: State, t: nat, h: nat)
    requires Borrowed(s) && InOrder(s) && DataOk(s) && t < |s.threads| && s.threads[t].pc == Dropping(h)
    requires s.freed == 0
    ensures DataOk(DropStep(s, t, h))
  {
    var s' := DropStep(s, t, h);
    assert BorrowsOk(s, t) && RoleOk(s, t);
    DataLives(s, h);
    DropCounted(s, t, h);
    DropReleases(s, t, h);
    DataMoved(s, s', t, h);
  }

  lemma DropRelated(s: State, a: A.State, t: nat, h: nat)
    requires InOrder(s) && Related(s, a) && t < |s.threads| && s.threads[t].pc == Dropping(h) && h < |s.handles|
    ensures Related(DropStep(s, t, h), A.AccessStep(a, t, h))
  {
    SimAccess(s, DropStep(s, t, h), a, t, h);
  }

  lemma InvDrop(s: State, a: A.State, t: nat, h: nat)
    requires Inv(s, a) && t < |s.threads| && s.threads[t].pc == Dropping(h)
    ensures Inv(DropStep(s, t, h), A.AccessStep(a, t, h))
  {
    assert BorrowsOk(s, t);
    Accessed(s, a, t, h);
    DropRelated(s, a, t, h);
    DataInOrder(s, t, h);
    BorrowDrop(s, t, h);
    DropOk(s, t, h);
  }

  // ----- The ends of T and of the block -----

  lemma FenceOk(s: State, t: nat, pc: Pc)
    requires Borrowed(s) && DataOk(s) && t < |s.threads|
    requires (s.threads[t].pc.FreeFence? && pc == Freeing)
             || (s.threads[t].pc.DropFence? && pc == DropT(s.threads[t].pc.h))
             || (s.threads[t].pc.GmFence? && pc == Mutating(s.threads[t].pc.h))
    ensures Borrowed(FenceStep(s, t, pc)) && DataOk(FenceStep(s, t, pc))
  {
    var s' := FenceStep(s, t, pc);
    assert BorrowsOk(s, t) && RoleOk(s, t);
    Steady(s, s', t);
    StillKnown(s, s', t);
    DataKept(s, s', t, |s.handles|);
  }

  lemma InvDropFence(s: State, a: A.State, t: nat, h: nat)
    requires Inv(s, a) && t < |s.threads| && s.threads[t].pc == DropFence(h)
    ensures Inv(FenceStep(s, t, DropT(h)), a)
  {
    SimQuiet(s, FenceStep(s, t, DropT(h)), a, t);
    AccessesInOrder(s, t, h, DropT(h));
    FenceOk(s, t, DropT(h));
  }

  /** Whoever is about to drop T knows every access to it. */
  lemma TouchedKnown(s: State, t: nat, h: nat)
    requires DataOk(s) && t < |s.threads| && s.threads[t].pc == DropT(h)
    ensures s.touched <= s.threads[t].clock.events && s.dropped == 0
    ensures forall g: nat :: !IsLive(s, g, Arc)
  {
    assert RoleOk(s, t);
    forall g: nat ensures !IsLive(s, g, Arc) {
      if IsLive(s, g, Arc) { DataLives(s, g); }
    }
    forall e | e in s.touched
      ensures e in s.threads[t].clock.events
    {
      assert Covered(s, e);
    }
  }

  lemma DropTOk(s: State, t: nat, h: nat)
    requires Borrowed(s) && DataOk(s) && t < |s.threads| && s.threads[t].pc == DropT(h) && s.freed == 0
    ensures DataOk(DropTStep(s, t, h))
  {
    var s' := DropTStep(s, t, h);
    assert RoleOk(s, t);
    TouchedKnown(s, t, h);
    CountKept(s, s', t, |s.handles|);
    RolesKept(s, s', t);
    CoverKept(s, s', t, |s.handles|);
  }

  lemma DropTRelated(s: State, a: A.State, t: nat, h: nat)
    requires Related(s, a) && Borrowed(s) && t < |s.threads| && s.threads[t].pc == DropT(h)
    ensures Related(DropTStep(s, t, h), A.AccessStep(a, t, h)) && Borrowed(DropTStep(s, t, h))
  {
    assert BorrowsOk(s, t);
    SimAccess(s, DropTStep(s, t, h), a, t, h);
    Steady(s, DropTStep(s, t, h), t);
  }

  lemma InvDropT(s: State, a: A.State, t: nat, h: nat)
    requires Inv(s, a) && t < |s.threads| && s.threads[t].pc == DropT(h)
    ensures Inv(DropTStep(s, t, h), A.AccessStep(a, t, h))
  {
    Accessed(s, a, t, h);
    DropTRelated(s, a, t, h);
    AccessesInOrder(s, t, h, Calm);
    DropTOk(s, t, h);
  }

  lemma InvFence(s: State, a: A.State, t: nat, pc: Pc)
    requires Inv(s, a) && t < |s.threads|
    requires (s.threads[t].pc.FreeFence? && pc == Freeing)
             || (s.threads[t].pc.GmFence? && pc == Mutating(s.threads[t].pc.h))
    ensures Inv(FenceStep(s, t, pc), A.FenceStep(a, t, PcImage(pc)))
  {
    assert ThreadRelated(s.threads[t], a.threads[t]);
    A.InvFence(a, t, PcImage(pc));
    SimFence(s, a, t, pc);
    AccessesInOrder(s, t, 0, pc);
    FenceOk(s, t, pc);
  }

  lemma FreeOk(s: State, t: nat)
    requires Borrowed(s) && DataOk(s) && t < |s.threads| && s.threads[t].pc.Freeing?
    requires s.freed == 0 && Complete(s.events, s.threads[t].clock)
    ensures Borrowed(FreeStep(s, t)) && DataOk(FreeStep(s, t))
  {
    var s' := FreeStep(s, t);
    assert BorrowsOk(s, t) && RoleOk(s, t);
    Steady(s, s', t);
    StillKnown(s, s', t);
    DataKept(s, s', t, |s.handles|);
  }

  /** Whoever is about to free the block, or alone with it, knows every access. */
  lemma AllKnown(s: State, a: A.State, t: nat)
    requires Inv(s, a) && t < |s.threads| && (s.threads[t].pc.Freeing? || s.threads[t].pc.Mutating?)
    ensures s.freed == 0 && Complete(s.events, s.threads[t].clock)
  {
    assert ThreadRelated(s.threads[t], a.threads[t]) && A.ThreadOk(a, t);
    A.AllKnown(a, t);
  }

  lemma InvFree(s: State, a: A.State, t: nat)
    requires Inv(s, a) && t < |s.threads| && s.threads[t].pc.Freeing?
    ensures Inv(FreeStep(s, t), A.FreeStep(a, t))
  {
    assert ThreadRelated(s.threads[t], a.threads[t]);
    AllKnown(s, a, t);
    A.InvFree(a, t);
    SimFree(s, a, t);
    AccessesInOrder(s, t, 0, Calm);
    FreeOk(s, t);
  }

  // ----- get_mut -----

  lemma EndOwnOk(s: State, t: nat, h: nat)
    requires Borrowed(s) && DataOk(s) && t < |s.threads|
    requires s.threads[t].pc == GmLoad(h) || s.threads[t].pc == Mutating(h)
    ensures DataOk(EndOwn(s, t, h))
  {
    var s' := EndOwn(s, t, h);
    assert BorrowsOk(s, t) && RoleOk(s, t) && Owns(s.threads[t].pc, h) && OwnedOk(s, t, h);
    forall e: nat, g: nat | ThreadCovers(s, t, g, e)
      ensures Covered(s', e)
    {
      assert if g == h then HandleCovers(s', h, e) else ThreadCovers(s', t, g, e);
    }
    forall e: nat | HandleCovers(s, h, e) ensures Covered(s', e) { assert HandleCovers(s', h, e); }
    DataKept(s, s', t, h);
  }

  /** The load itself, before its result is used. */
  lemma LoadOk(s: State, t: nat, h: nat, i: nat)
    requires Borrowed(s) && DataOk(s) && t < |s.threads| && s.threads[t].pc == GmLoad(h)
    requires s.threads[t].clock.alloc <= i < |s.alloc| && s.freed == 0
    ensures var s1 := LoadAlloc(Touch(s, t), t, i); Borrowed(s1) && DataOk(s1)
  {
    var s1 := LoadAlloc(Touch(s, t), t, i);
    assert BorrowsOk(s, t) && RoleOk(s, t);
    Steady(s, s1, t);
    StillKnown(s, s1, t);
    DataKept(s, s1, t, |s.handles|);
  }

  lemma SawOneOk(s: State, t: nat, h: nat)
    requires Borrowed(s) && DataOk(s) && t < |s.threads| && s.threads[t].pc == GmLoad(h)
    ensures DataOk(Goto(s, t, GmFence(h)))
  {
    var s' := Goto(s, t, GmFence(h));
    assert RoleOk(s, t);
    StillKnown(s, s', t);
    DataKept(s, s', t, |s.handles|);
  }

  lemma GmLoadOk(s: State, t: nat, h: nat, i: nat)
    requires Borrowed(s) && DataOk(s) && t < |s.threads| && s.threads[t].pc == GmLoad(h)
    requires s.threads[t].clock.alloc <= i < |s.alloc| && s.freed == 0
    ensures DataOk(GmLoadStep(s, t, h, i))
  {
    LoadOk(s, t, h, i);
    var s1 := LoadAlloc(Touch(s, t), t, i);
    if s.alloc[i].value == 1 {
      SawOneOk(s1, t, h);
    } else {
      EndOwnOk(s1, t, h);
    }
  }

  lemma InvGmLoad(s: State, a: A.State, t: nat, h: nat, i: nat)
    requires Inv(s, a) && t < |s.threads| && s.threads[t].pc == GmLoad(h)
    requires s.threads[t].clock.alloc <= i < |s.alloc|
    ensures Inv(GmLoadStep(s, t, h, i), A.GmLoadStep(a, t, h, i))
  {
    assert ThreadRelated(s.threads[t], a.threads[t]) && BorrowsOk(s, t);
    BlockLives(s, a, t, h);
    A.InvGmLoad(a, t, h, i);
    SimLoad(s, a, t, h, i);
    GetMutInOrder(s, t, h, i);
    BorrowGetMut(s, t, h, i);
    GmLoadOk(s, t, h, i);
  }

  lemma WriteOk(s: State, t: nat, h: nat)
    requires Borrowed(s) && DataOk(s) && t < |s.threads| && s.threads[t].pc == Mutating(h)
    requires s.freed == 0 && Complete(s.events, s.threads[t].clock)
    ensures Borrowed(WriteStep(s, t)) && DataOk(WriteStep(s, t))
  {
    var s' := WriteStep(s, t);
    assert BorrowsOk(s, t) && RoleOk(s, t);
    DataLives(s, h);
    Steady(s, s', t);
    StillKnown(s, s', t);
    assert ThreadCovers(s', t, h, s.events);
    DataKept(s, s', t, |s.handles|);
  }

  lemma InvWrite(s: State, a: A.State, t: nat, h: nat)
    requires Inv(s, a) && t < |s.threads| && s.threads[t].pc == Mutating(h)
    ensures Inv(WriteStep(s, t), A.WriteStep(a, t))
  {
    assert ThreadRelated(s.threads[t], a.threads[t]) && BorrowsOk(s, t);
    AllKnown(s, a, t);
    A.InvWrite(a, t, h);
    SimWrite(s, a, t);
    AccessesInOrder(s, t, h, Calm);
    WriteOk(s, t, h);
  }

  lemma InvEndMut(s: State, a: A.State, t: nat, h: nat)
    requires Inv(s, a) && t < |s.threads| && s.threads[t].pc == Mutating(h)
    ensures Inv(EndOwn(s, t, h), A.EndOwn(a, t, h))
  {
    assert ThreadRelated(s.threads[t], a.threads[t]) && BorrowsOk(s, t);
    A.InvOwnEnds(a, t, h);
    SimEndOwn(s, a, t, h);
    OwnInOrder(s, t, h, Arc, Calm);
    BorrowGetMut(s, t, h, 0);
    EndOwnOk(s, t, h);
  }

  lemma AbortOk(s: State, t: nat)
    requires Borrowed(s) && DataOk(s) && t < |s.threads|
    ensures Borrowed(s.(aborted := true)) && DataOk(s.(aborted := true))
  {
    var s' := s.(aborted := true);
    assert RoleOk(s, t) && BorrowsOk(s, t);
    assert s'.threads == s.threads[t := s'.threads[t]];
    Steady(s, s', t);
    StillKnown(s, s', t);
    DataKept(s, s', t, |s.handles|);
  }

  lemma InvAbort(s: State, a: A.State, t: nat)
    requires Inv(s, a) && t < |s.threads|
    ensures Inv(s.(aborted := true), a)
  {
    var s' := s.(aborted := true);
    assert s'.threads == s.threads[t := s'.threads[t]];
    SimQuiet(s, s', a, t);
    OrderMoved(s, s', t);
    AbortOk(s, t);
  }
}
