/** The borrows of the simple `Arc` under the weak memory model, and the bounds of its clocks. */
module SimpleClocksBorrows {
  import opened References
  import opened Usize
  import opened TwoClocks
  import opened SimpleClocks

  predicate OneThread(s: State, s': State, t: nat) {
    t < |s.threads| == |s'.threads| && s'.threads == s.threads[t := s'.threads[t]]
  }

  // ----- Clocks refer to messages that exist -----

  predicate Fits(s: State, c: Clock) {
    WithinClock(c, |s.data|, |s.alloc|)
  }

  predicate ThreadFits(s: State, th: Thread) {
    Fits(s, th.clock) && Fits(s, th.pending)
  }

  predicate HandleFits(s: State, x: Handle) {
    Fits(s, x.base) && Fits(s, x.ended)
  }

  predicate InOrder(s: State) {
    && s.data != [] && s.alloc != []
    && (forall i | 0 <= i < |s.data| :: Fits(s, s.data[i].clock))
    && (forall i | 0 <= i < |s.alloc| :: Fits(s, s.alloc[i].clock))
    && (forall t | 0 <= t < |s.threads| :: ThreadFits(s, s.threads[t]))
    && (forall h | 0 <= h < |s.handles| :: HandleFits(s, s.handles[h]))
  }

  lemma OrderKept(s: State, s': State, t: nat)
    requires InOrder(s) && OneThread(s, s', t)
    requires s'.data == s.data || (|s'.data| == |s.data| + 1 && s'.data[..|s.data|] == s.data)
    requires s'.alloc == s.alloc || (|s'.alloc| == |s.alloc| + 1 && s'.alloc[..|s.alloc|] == s.alloc)
    requires Fits(s', LastData(s').clock) && Fits(s', LastAlloc(s').clock) && ThreadFits(s', s'.threads[t])
    requires forall h | 0 <= h < |s'.handles| ::
               (h < |s.handles| && s'.handles[h] == s.handles[h]) || HandleFits(s', s'.handles[h])
    ensures InOrder(s')
  {
    forall i | 0 <= i < |s'.data| ensures Fits(s', s'.data[i].clock) {
      assert i < |s.data| ==> s'.data[i] == s.data[i];
    }
    forall i | 0 <= i < |s'.alloc| ensures Fits(s', s'.alloc[i].clock) {
      assert i < |s.alloc| ==> s'.alloc[i] == s.alloc[i];
    }
  }

  lemma OrderTouch(s: State, t: nat)
    requires InOrder(s) && t < |s.threads|
    ensures InOrder(Touch(s, t))
  {
    OrderKept(s, Touch(s, t), t);
  }

  lemma OrderData(s: State, t: nat, value: nat, release: bool)
    requires InOrder(s) && t < |s.threads|
    ensures InOrder(ChangeData(s, t, value, release))
  {
    OrderKept(s, ChangeData(s, t, value, release), t);
  }

  lemma OrderAlloc(s: State, t: nat, value: nat, release: bool)
    requires InOrder(s) && t < |s.threads|
    ensures InOrder(ChangeAlloc(s, t, value, release))
  {
    OrderKept(s, ChangeAlloc(s, t, value, release), t);
  }

  /** The counters stay, and thread `t` and the handles get clocks that fit. */
  lemma OrderMoved(s: State, s': State, t: nat)
    requires InOrder(s) && OneThread(s, s', t) && s'.data == s.data && s'.alloc == s.alloc
    requires ThreadFits(s, s'.threads[t])
    requires forall h | 0 <= h < |s'.handles| ::
               (h < |s.handles| && s'.handles[h] == s.handles[h]) || HandleFits(s, s'.handles[h])
    ensures InOrder(s')
  {
    OrderKept(s, s', t);
  }

  lemma OrderNew(s: State, t: nat, kind: Kind, pc: Pc)
    requires InOrder(s) && t < |s.threads|
    ensures InOrder(WeakCloneStep(s, t, kind, pc))
  {
    OrderTouch(s, t);
    var s1 := ChangeAlloc(Touch(s, t), t, Increment(LastAlloc(s).value), false);
    OrderAlloc(Touch(s, t), t, Increment(LastAlloc(s).value), false);
    OrderMoved(s1, WeakCloneStep(s, t, kind, pc), t);
  }

  lemma SharedInOrder(s: State, t: nat, h: nat)
    requires InOrder(s) && t < |s.threads|
    ensures InOrder(BeginSharedStep(s, t, h)) && InOrder(EndSharedStep(s, t, h))
  {
    if CanShare(s, h) { OrderMoved(s, BeginSharedStep(s, t, h), t); }
    if h in s.threads[t].shared && h < |s.handles| { OrderMoved(s, EndSharedStep(s, t, h), t); }
  }

  lemma OwnInOrder(s: State, t: nat, h: nat, kind: Kind, pc: Pc)
    requires InOrder(s) && t < |s.threads|
    ensures InOrder(BeginOwnStep(s, t, h, kind, pc)) && InOrder(EndOwn(s, t, h))
  {
    if CanOwn(s, h, kind) { OrderMoved(s, BeginOwnStep(s, t, h, kind, pc), t); }
    if h < |s.handles| { OrderMoved(s, EndOwn(s, t, h), t); }
  }

  lemma DataInOrder(s: State, t: nat, h: nat)
    requires InOrder(s) && t < |s.threads|
    ensures InOrder(CloneDataStep(s, t, h)) && InOrder(DropStep(s, t, h))
  {
    OrderTouch(s, t);
    if h < |s.handles| {
      var n := LastData(s).value;
      OrderData(Touch(s, t), t, Increment(n), false);
      OrderMoved(ChangeData(Touch(s, t), t, Increment(n), false), CloneDataStep(s, t, h), t);
      OrderData(Touch(s, t), t, Decrement(n), true);
      OrderMoved(ChangeData(Touch(s, t), t, Decrement(n), true), DropStep(s, t, h), t);
    }
  }

  lemma AllocInOrder(s: State, t: nat, h: nat)
    requires InOrder(s) && t < |s.threads|
    ensures InOrder(DropAllocStep(s, t, h))
  {
    OrderTouch(s, t);
    if h < |s.handles| {
      var n := LastAlloc(s).value;
      OrderAlloc(Touch(s, t), t, Decrement(n), true);
      OrderMoved(ChangeAlloc(Touch(s, t), t, Decrement(n), true), DropAllocStep(s, t, h), t);
    }
  }

  lemma UpgradeInOrder(s: State, t: nat, h: nat, n: nat, i: nat)
    requires InOrder(s) && t < |s.threads|
    ensures InOrder(UpLoadStep(s, t, h, i)) && InOrder(UpExchange(s, t, h, n))
  {
    OrderTouch(s, t);
    if s.threads[t].clock.data <= i < |s.data| { OrderMoved(Touch(s, t), UpLoadStep(s, t, h, i), t); }
    if LastData(s).value == n {
      OrderData(Touch(s, t), t, n + 1, false);
      OrderMoved(ChangeData(Touch(s, t), t, n + 1, false), UpExchange(s, t, h, n), t);
    }
  }

  lemma GetMutInOrder(s: State, t: nat, h: nat, i: nat)
    requires InOrder(s) && t < |s.threads|
    ensures InOrder(GmLoadStep(s, t, h, i))
  {
    OrderTouch(s, t);
    if s.threads[t].clock.alloc <= i < |s.alloc| {
      OrderMoved(Touch(s, t), LoadAlloc(Touch(s, t), t, i), t);
      OrderMoved(LoadAlloc(Touch(s, t), t, i), GmLoadStep(s, t, h, i), t);
    }
  }

  lemma AccessesInOrder(s: State, t: nat, h: nat, pc: Pc)
    requires InOrder(s) && t < |s.threads|
    ensures InOrder(FenceStep(s, t, pc)) && InOrder(DropTStep(s, t, h)) && InOrder(FreeStep(s, t))
    ensures InOrder(ReadStep(s, t, h)) && InOrder(WriteStep(s, t))
  {
    OrderTouch(s, t);
    OrderMoved(s, FenceStep(s, t, pc), t);
    OrderMoved(Touch(s, t), DropTStep(s, t, h), t);
    OrderMoved(s, FreeStep(s, t), t);
    OrderMoved(Touch(s, t), WriteStep(s, t), t);
    if ReadStep(s, t, h) != s { OrderMoved(Touch(s, t), ReadStep(s, t, h), t); }
  }

  // ----- Who works through which handle -----

  predicate KindOk(s: State, pc: Pc) {
    && (pc.Cloning? ==> IsLive(s, pc.h, Arc) && IsLive(s, pc.g, Half))
    && (pc.UpLoad? || pc.UpCas? || pc.UpAlloc? ==> IsLive(s, pc.h, Weak))
    && (pc.Dropping? || Asking(pc) ==> IsLive(s, pc.h, Arc))
    && (pc.DropFence? || pc.DropT? ==> IsLive(s, pc.h, Half))
    && (pc.DropAlloc? ==> IsLive(s, pc.h, Half) || IsLive(s, pc.h, Weak))
  }

  predicate OwnedOk(s: State, t: nat, x: nat)
    requires t < |s.threads|
  {
    && x < |s.handles| && s.handles[x].status == Live
    && Leq(s.handles[x].base, s.threads[t].clock) && Leq(s.handles[x].ended, s.threads[t].clock)
    && x !in s.threads[t].shared
    && forall u: nat | u < |s.threads| && u != t :: !Uses(s.threads[u], x)
  }

  ghost predicate BorrowsOk(s: State, t: nat)
    requires t < |s.threads|
  {
    var th := s.threads[t];
    && (forall h | h in th.shared :: Usable(s, h))
    && (forall x: nat | Owns(th.pc, x) :: OwnedOk(s, t, x))
    && KindOk(s, th.pc)
    && (Through(th.pc) ==> th.pc.h in th.shared)
  }

  ghost predicate Borrowed(s: State) {
    s.data != [] && s.alloc != [] && forall t: nat | t < |s.threads| :: BorrowsOk(s, t)
  }

  /** Handle `g` still serves the threads other than `t`. */
  predicate Serves(s: State, s': State, t: nat, g: nat)
    requires t < |s.threads| && g < |s.handles|
  {
    && g < |s'.handles|
    && (|| s'.handles[g] == s.handles[g]
        || Owns(s.threads[t].pc, g)
        || (g in s.threads[t].shared && s'.handles[g] == s.handles[g].(ended := s'.handles[g].ended)))
  }

  /** Thread `t` begins to use only what nobody has to themselves. */
  ghost predicate Modest(s: State, s': State, t: nat)
    requires t < |s.threads| && t < |s'.threads|
  {
    forall g: nat | Uses(s'.threads[t], g) ::
      Uses(s.threads[t], g) || forall u: nat | u < |s.threads| && u != t :: !Owns(s.threads[u].pc, g)
  }

  lemma BorrowsKept(s: State, s': State, t: nat)
    requires Borrowed(s) && OneThread(s, s', t) && s'.data != [] && s'.alloc != []
    requires forall g: nat | g < |s.handles| :: Serves(s, s', t, g)
    requires Modest(s, s', t)
    requires BorrowsOk(s', t)
    ensures Borrowed(s')
  {
    forall u: nat | u < |s.threads| && u != t
      ensures BorrowsOk(s', u)
    {
      var th := s.threads[u];
      assert BorrowsOk(s, u) && BorrowsOk(s, t);
      forall g: nat | Uses(th, g)
        ensures g < |s.handles| && g < |s'.handles|
        ensures s'.handles[g] == s.handles[g] || s'.handles[g] == s.handles[g].(ended := s'.handles[g].ended)
        ensures Owns(th.pc, g) ==> s'.handles[g] == s.handles[g] && !Uses(s'.threads[t], g)
      {
        assert Serves(s, s', t, g);
        if Owns(th.pc, g) { assert OwnedOk(s, u, g); }
        assert !Owns(s.threads[t].pc, g);
      }
      forall x: nat | Owns(th.pc, x)
        ensures OwnedOk(s', u, x)
      {
        assert OwnedOk(s, u, x) && Uses(th, x);
      }
      assert forall h | h in th.shared :: Uses(th, h);
      assert th.pc.Cloning? ==> Uses(th, th.pc.g);
      assert Leaving(th.pc) || Asking(th.pc) ==> Uses(th, th.pc.h);
    }
  }

  /** Nobody uses a handle that does not exist yet. */
  lemma NobodyUses(s: State, u: nat, g: nat)
    requires Borrowed(s) && u < |s.threads| && g >= |s.handles|
    ensures !Uses(s.threads[u], g)
  {
    assert BorrowsOk(s, u);
    assert Owns(s.threads[u].pc, g) ==> OwnedOk(s, u, g);
  }

  /** A step that leaves the handles and the borrows alone. */
  lemma Steady(s: State, s': State, t: nat)
    requires Borrowed(s) && OneThread(s, s', t) && s'.data != [] && s'.alloc != []
    requires s'.handles == s.handles && s'.threads[t].shared == s.threads[t].shared
    requires Leq(s.threads[t].clock, s'.threads[t].clock)
    requires forall x: nat | Owns(s'.threads[t].pc, x) :: Owns(s.threads[t].pc, x)
    requires KindOk(s, s'.threads[t].pc)
    requires Through(s'.threads[t].pc) ==> s'.threads[t].pc.h in s.threads[t].shared
    ensures Borrowed(s')
  {
    assert BorrowsOk(s, t);
    forall x: nat | Owns(s'.threads[t].pc, x)
      ensures OwnedOk(s', t, x)
    {
      assert OwnedOk(s, t, x);
    }
    BorrowsKept(s, s', t);
  }

  lemma BorrowShared(s: State, t: nat, h: nat)
    requires Borrowed(s) && t < |s.threads| && s.threads[t].pc.Calm?
    ensures Borrowed(BeginSharedStep(s, t, h)) && Borrowed(EndSharedStep(s, t, h))
  {
    assert BorrowsOk(s, t);
    if CanShare(s, h) { BorrowsKept(s, BeginSharedStep(s, t, h), t); }
    if h in s.threads[t].shared { BorrowsKept(s, EndSharedStep(s, t, h), t); }
  }

  lemma BorrowOwn(s: State, t: nat, h: nat, kind: Kind, pc: Pc)
    requires Borrowed(s) && t < |s.threads| && s.threads[t].pc.Calm?
    requires (kind == Arc && (pc == Dropping(h) || pc == GmLoad(h))) || (kind == Weak && pc == DropAlloc(h))
    ensures Borrowed(BeginOwnStep(s, t, h, kind, pc))
  {
    var s' := BeginOwnStep(s, t, h, kind, pc);
    assert BorrowsOk(s, t);
    if CanOwn(s, h, kind) {
      assert !Uses(s.threads[t], h);
      assert OwnedOk(s', t, h);
      BorrowsKept(s, s', t);
    }
  }

  /** An exclusive use ends, or the owner changes its handle. */
  lemma BorrowEnds(s: State, s': State, t: nat, h: nat)
    requires Borrowed(s) && OneThread(s, s', t) && s'.data != [] && s'.alloc != []
    requires h < |s.handles| == |s'.handles| && Owns(s.threads[t].pc, h)
    requires s'.handles == s.handles[h := s'.handles[h]]
    requires s'.threads[t].shared == s.threads[t].shared
    requires forall x: nat | Owns(s'.threads[t].pc, x) :: x == h && OwnedOk(s', t, h)
    requires KindOk(s', s'.threads[t].pc) && !Through(s'.threads[t].pc)
    ensures Borrowed(s')
  {
    assert BorrowsOk(s, t) && OwnedOk(s, t, h);
    BorrowsKept(s, s', t);
  }

  lemma BorrowNew(s: State, t: nat, kind: Kind, pc: Pc)
    requires Borrowed(s) && t < |s.threads| && (s.threads[t].pc.Calm? || s.threads[t].pc.UpAlloc?)
    requires pc == Calm || (kind == Half && pc.Cloning? && pc.g == |s.handles| && pc.h in s.threads[t].shared
                            && IsLive(s, pc.h, Arc))
    ensures Borrowed(WeakCloneStep(s, t, kind, pc))
  {
    var s' := WeakCloneStep(s, t, kind, pc);
    assert BorrowsOk(s, t);
    var g := |s.handles|;
    forall u: nat | u < |s.threads|
      ensures !Uses(s.threads[u], g)
    {
      NobodyUses(s, u, g);
    }
    assert Owns(s'.threads[t].pc, g) ==> OwnedOk(s', t, g);
    BorrowsKept(s, s', t);
  }

  lemma BorrowCloned(s: State, t: nat, h: nat, g: nat)
    requires InOrder(s) && Borrowed(s) && t < |s.threads| && s.threads[t].pc == Cloning(h, g)
    ensures Borrowed(CloneDataStep(s, t, g))
  {
    var s' := CloneDataStep(s, t, g);
    assert BorrowsOk(s, t) && Owns(s.threads[t].pc, g) && OwnedOk(s, t, g);
    assert s'.threads[t].pc == Calm || s'.threads[t].pc == Aborting;
    BorrowEnds(s, s', t, g);
  }

  lemma BorrowDrop(s: State, t: nat, h: nat)
    requires InOrder(s) && Borrowed(s) && t < |s.threads|
    requires s.threads[t].pc == Dropping(h) || s.threads[t].pc == DropAlloc(h)
    ensures s.threads[t].pc == Dropping(h) ==> Borrowed(DropStep(s, t, h))
    ensures s.threads[t].pc == DropAlloc(h) ==> Borrowed(DropAllocStep(s, t, h))
  {
    assert BorrowsOk(s, t) && Owns(s.threads[t].pc, h) && OwnedOk(s, t, h);
    if s.threads[t].pc == Dropping(h) {
      assert OwnedOk(DropStep(s, t, h), t, h);
      BorrowEnds(s, DropStep(s, t, h), t, h);
    } else {
      BorrowEnds(s, DropAllocStep(s, t, h), t, h);
    }
  }

  lemma BorrowGetMut(s: State, t: nat, h: nat, i: nat)
    requires Borrowed(s) && t < |s.threads|
    requires s.threads[t].pc == GmLoad(h) || s.threads[t].pc == Mutating(h)
    ensures s.threads[t].pc == GmLoad(h) ==> Borrowed(GmLoadStep(s, t, h, i))
    ensures s.threads[t].pc == Mutating(h) ==> Borrowed(EndOwn(s, t, h))
  {
    assert BorrowsOk(s, t) && Owns(s.threads[t].pc, h) && OwnedOk(s, t, h);
    if s.threads[t].pc == Mutating(h) {
      BorrowEnds(s, EndOwn(s, t, h), t, h);
    } else if s.threads[t].clock.alloc <= i < |s.alloc| {
      if s.alloc[i].value == 1 {
        Steady(s, GmLoadStep(s, t, h, i), t);
      } else {
        BorrowEnds(s, GmLoadStep(s, t, h, i), t, h);
      }
    }
  }

  lemma BorrowUpgrade(s: State, t: nat, h: nat, n: nat, i: nat)
    requires InOrder(s) && Borrowed(s) && t < |s.threads|
    requires s.threads[t].pc == UpLoad(h) || s.threads[t].pc == UpCas(h, n)
    ensures Borrowed(UpLoadStep(s, t, h, i)) && Borrowed(UpExchange(s, t, h, n))
  {
    assert BorrowsOk(s, t);
    if s.threads[t].clock.data <= i < |s.data| { Steady(s, UpLoadStep(s, t, h, i), t); }
    if LastData(s).value == n { Steady(s, UpExchange(s, t, h, n), t); }
  }
}
