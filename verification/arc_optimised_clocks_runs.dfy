/** Every step and every run of the optimised `Arc` under the weak memory model. */
module OptimisedClocksRuns {
  import opened Basics
  import opened References
  import opened Sums
  import opened Usize
  import opened TwoClocks
  import opened OptimisedClocks
  import opened OptimisedClocksInv
  import opened OptimisedClocksSteps

  /** A live `Arc` beside a thread that is alone is that thread's own. */
  lemma OnlyMine(s: State, t: nat, g: nat)
    requires Inv(s) && t < |s.threads| && s.threads[t].pc.Mutating? && IsLive(s, g, Arc)
    ensures s.threads[t].pc == Mutating(g)
  {
    var h := s.threads[t].pc.h;
    assert ThreadOk(s, t);
    if h != g {
      SumAtLeastTwo(s.handles, if g < h then g else h, if g < h then h else g, ArcShare);
    }
  }

  // ----- The ends of T and of the block -----

  lemma TouchedKnown(s: State, t: nat)
    requires Inv(s) && t < |s.threads| && (s.threads[t].pc.DropT? || s.threads[t].pc.Mutating?)
    ensures s.touched <= s.threads[t].clock.events
  {
    assert ThreadOk(s, t);
    forall e | e in s.touched
      ensures e in s.threads[t].clock.events
    {
      assert TCovered(s, e);
      if g: nat :| IsLive(s, g, Arc) && HandleCovers(s, g, e) {
        SumAtLeast(s.handles, g, ArcShare);
        OnlyMine(s, t, g);
        var c: Clock :| About(s, g, c) && e in c.events;
        OwnerKnows(s, t, g, c);
      }
    }
  }

  lemma InvDropT(s: State, t: nat)
    requires Inv(s) && t < |s.threads| && s.threads[t].pc.DropT?
    ensures Inv(DropTStep(s, t))
  {
    var s' := DropTStep(s, t);
    var none := |s.handles|;
    assert ThreadOk(s, t);
    TouchedKnown(s, t);
    SharedGrow(s, s', t);
    assert LastCovers(s', t, s.events);
    OthersKept(s, s', t);
    HandlesKept(s, s', t, none);
    KeepsAllBut(s, s', t, none);
    OnesKept(s, s', none);
    CoverKept(s, s', t, none);
    TCoverKept(s, s', t, none);
  }

  /** Whoever is about to free the block knows every access. */
  lemma AllKnown(s: State, t: nat)
    requires Inv(s) && t < |s.threads| && s.threads[t].pc.Freeing?
    ensures Complete(s.events, s.threads[t].clock)
  {
    assert ThreadOk(s, t);
    forall u: nat | u < |s.threads|
      ensures !Lasting(s.threads[u].pc)
    {
      assert ThreadOk(s, u);
    }
    forall e: nat | e < s.events
      ensures e in s.threads[t].clock.events
    {
      assert Covered(s, e);
      assert !(exists u: nat :: LastCovers(s, u, e));
      if h: nat :| HandleCovers(s, h, e) {
        SumAtLeast(s.handles, h, ArcShare);
        SumAtLeast(s.handles, h, WeakShare);
      }
    }
  }

  lemma InvFree(s: State, t: nat)
    requires Inv(s) && t < |s.threads| && s.threads[t].pc.Freeing?
    ensures Inv(FreeStep(s, t))
  {
    var s' := FreeStep(s, t);
    var none := |s.handles|;
    assert ThreadOk(s, t);
    AllKnown(s, t);
    SharedGrow(s, s', t);
    OthersKept(s, s', t);
    HandlesKept(s, s', t, none);
    KeepsAllBut(s, s', t, none);
    OnesKept(s, s', none);
    CoverKept(s, s', t, none);
    TCoverKept(s, s', t, none);
  }

  lemma WriteThreads(s: State, t: nat, h: nat)
    requires Inv(s) && t < |s.threads| && s.threads[t].pc == Mutating(h)
    ensures var s' := WriteStep(s, t); !s'.bad && forall u: nat | u < |s'.threads| :: ThreadOk(s', u)
  {
    var s' := WriteStep(s, t);
    assert Uses(s.threads[t], h) && ThreadOk(s, t);
    LiveIsCounted(s, t, h);
    NobodyAlone(s, t, h);
    TouchedKnown(s, t);
    SharedGrow(s, s', t);
    OthersKept(s, s', t);
  }

  lemma WriteHandles(s: State, t: nat, h: nat)
    requires Inv(s) && t < |s.threads| && s.threads[t].pc == Mutating(h)
    ensures var s' := WriteStep(s, t); forall g: nat | g < |s'.handles| :: HandleOk(s', g)
  {
    var s' := WriteStep(s, t);
    assert ThreadOk(s, t);
    forall g: nat | g < |s.handles|
      ensures HandleOk(s', g)
    {
      assert HandleOk(s, g);
      if s.handles[g].status == Live {
        SumAtLeast(s.handles, g, WeakShare);
        OnlyMine(s, t, g);
        assert IsMutating(s', t, g);
      }
    }
  }

  lemma InvWrite(s: State, t: nat, h: nat)
    requires Inv(s) && t < |s.threads| && s.threads[t].pc == Mutating(h)
    ensures Inv(WriteStep(s, t))
  {
    var s' := WriteStep(s, t);
    var none := |s.handles|;
    WriteThreads(s, t, h);
    WriteHandles(s, t, h);
    assert Uses(s.threads[t], h) && ThreadOk(s, t);
    MineCovered(s', t, h, s.events);
    assert IsLive(s', h, Arc);
    KeepsAllBut(s, s', t, none);
    OnesKept(s, s', none);
    CoverKept(s, s', t, none);
    TCoverKept(s, s', t, none);
  }

  lemma InvAbort(s: State, t: nat)
    requires Inv(s) && t < |s.threads|
    ensures Inv(s.(aborted := true))
  {
    var s' := s.(aborted := true);
    var none := |s.handles|;
    assert ThreadOk(s, t);
    assert s'.threads == s.threads[t := s'.threads[t]];
    SharedGrow(s, s', t);
    OthersKept(s, s', t);
    HandlesKept(s, s', t, none);
    KeepsAllBut(s, s', t, none);
    OnesKept(s, s', none);
    CoverKept(s, s', t, none);
    TCoverKept(s, s', t, none);
  }

  // ----- Every step, every run -----

  lemma InvUpExchange(s: State, t: nat, h: nat, n: nat)
    requires Inv(s) && Bounded(s) && t < |s.threads| && s.threads[t].pc == UpCas(h, n)
    ensures Inv(UpExchange(s, t, n))
  {
    if LastData(s).value == n {
      assert ThreadOk(s, t);
      assert Uses(s.threads[t], h);
      InvTouch(s, t, h);
      InvRaise(Touch(s, t), t, h, false);
      assert UpExchange(s, t, n) == Raised(Touch(s, t), t, false);
    }
  }

  lemma InvDownExchange(s: State, t: nat, h: nat, n: nat)
    requires Inv(s) && Bounded(s) && t < |s.threads| && s.threads[t].pc == DownCas(h, n)
    ensures Inv(DownExchange(s, t, n))
  {
    if LastAlloc(s).value == n {
      assert ThreadOk(s, t);
      assert Uses(s.threads[t], h);
      InvTouch(s, t, h);
      InvAddWeak(Touch(s, t), t, h, true, false);
      assert DownExchange(s, t, n) == AddedWeak(Touch(s, t), t, true, false);
    }
  }

  /** The steps of upgrade and downgrade. */
  lemma InvThrough(s: State, t: nat, a: Action)
    requires Inv(s) && Bounded(s) && !s.aborted && t < |s.threads| && Through(s.threads[t].pc)
    ensures Inv(Step(s, t, a))
  {
    match s.threads[t].pc
    case UpLoad(h) => if a.Continue? { InvUpLoad(s, t, h, a.i); }
    case UpCas(h, n) => if a.Continue? { InvUpLoad(s, t, h, a.i); } else { InvUpExchange(s, t, h, n); }
    case DownLoad(h) => if a.Continue? { InvDownLoad(s, t, h, a.i); }
    case DownCas(h, n) => if a.Continue? { InvDownLoad(s, t, h, a.i); } else { InvDownExchange(s, t, h, n); }
  }

  lemma InvClone(s: State, t: nat, h: nat)
    requires Inv(s) && Bounded(s) && t < |s.threads| && s.threads[t].pc.Calm?
    ensures Inv(CloneStep(s, t, h))
  {
    if h in s.threads[t].shared && IsLive(s, h, Arc) {
      assert Uses(s.threads[t], h);
      LiveIsCounted(s, t, h);
      InvTouch(s, t, h);
      InvRaise(Touch(s, t), t, h, LastData(s).value > MAX / 2);
      assert CloneStep(s, t, h) == Raised(Touch(s, t), t, LastData(s).value > MAX / 2);
    }
  }

  lemma CloneWeakIs(s: State, t: nat, h: nat)
    requires t < |s.threads| && s.alloc != [] && LastAlloc(s).value < MAX
    requires h in s.threads[t].shared && IsLive(s, h, Weak)
    ensures CloneWeakStep(s, t, h) == AddedWeak(Touch(s, t), t, false, LastAlloc(s).value > MAX / 2)
  {
  }

  lemma InvCloneWeak(s: State, t: nat, h: nat)
    requires Inv(s) && Bounded(s) && t < |s.threads| && s.threads[t].pc.Calm?
    ensures Inv(CloneWeakStep(s, t, h))
  {
    if h in s.threads[t].shared && IsLive(s, h, Weak) {
      assert Uses(s.threads[t], h);
      LiveIsCounted(s, t, h);
      InvTouch(s, t, h);
      InvAddWeak(Touch(s, t), t, h, false, LastAlloc(s).value > MAX / 2);
      CloneWeakIs(s, t, h);
    }
  }

  /** Which function the beginning of a borrow is. */
  lemma BeginsAre(s: State, t: nat, a: Action)
    requires t < |s.threads| && s.data != [] && s.alloc != []
    ensures var s' := CalmStep(s, t, a);
      && (a.BeginShared? ==> s' == BeginSharedStep(s, t, a.h))
      && (a.BeginUpgrade? ==> s' == BeginThrough(s, t, a.h, Weak, UpLoad(a.h)))
      && (a.BeginDowngrade? ==> s' == BeginThrough(s, t, a.h, Arc, DownLoad(a.h)))
      && (a.BeginDrop? ==> s' == BeginOwnStep(s, t, a.h, Arc, Dropping(a.h)))
      && (a.BeginDropWeak? ==> s' == BeginOwnStep(s, t, a.h, Weak, WeakDropping(a.h)))
      && (a.BeginGetMut? ==> s' == BeginOwnStep(s, t, a.h, Arc, GmCas(a.h)))
  {
  }

  /** Borrows that begin. */
  lemma InvBegin(s: State, t: nat, a: Action)
    requires Inv(s) && t < |s.threads| && s.threads[t].pc.Calm?
    requires a.BeginShared? || a.BeginUpgrade? || a.BeginDowngrade? || a.BeginDrop? || a.BeginDropWeak?
             || a.BeginGetMut?
    ensures Inv(CalmStep(s, t, a))
  {
    BeginsAre(s, t, a);
    match a
    case BeginShared(h) => InvBeginShared(s, t, h);
    case BeginUpgrade(h) => InvBeginThrough(s, t, h, Weak, UpLoad(h));
    case BeginDowngrade(h) => InvBeginThrough(s, t, h, Arc, DownLoad(h));
    case BeginDrop(h) => InvBeginOwn(s, t, h, Arc, Dropping(h));
    case BeginDropWeak(h) => InvBeginOwn(s, t, h, Weak, WeakDropping(h));
    case BeginGetMut(h) => InvBeginOwn(s, t, h, Arc, GmCas(h));
  }

  lemma InvCalm(s: State, t: nat, a: Action)
    requires Inv(s) && Bounded(s) && t < |s.threads| && s.threads[t].pc.Calm?
    ensures Inv(CalmStep(s, t, a))
  {
    match a
    case EndShared(h) => InvEndShared(s, t, h);
    case Read(h) => InvRead(s, t, h);
    case Clone(h) => InvClone(s, t, h);
    case CloneWeak(h) => InvCloneWeak(s, t, h);
    case Write | EndMut | Exchange | Continue(_) =>
    case _ => InvBegin(s, t, a);
  }

  lemma InvDrop(s: State, t: nat, h: nat)
    requires Inv(s) && t < |s.threads| && s.threads[t].pc == Dropping(h)
    ensures Inv(DropStep(s, t, h))
  {
    assert Uses(s.threads[t], h);
    InvTouch(s, t, h);
    InvLower(Touch(s, t), t, h);
    assert DropStep(s, t, h) == Lowered(Touch(s, t), t, h);
  }

  lemma WeakDropIs(s: State, t: nat, h: nat)
    requires t < |s.threads| && s.alloc != [] && h < |s.handles| && LastAlloc(s).value > 0
    ensures WeakDropStep(s, t, h) == WeakLowered(Touch(s, t), t, h)
  {
  }

  lemma InvWeakDrop(s: State, t: nat, h: nat)
    requires Inv(s) && t < |s.threads| && s.threads[t].pc == WeakDropping(h)
    ensures Inv(WeakDropStep(s, t, h))
  {
    assert Uses(s.threads[t], h);
    InvTouch(s, t, h);
    InvWeakLower(Touch(s, t), t, h);
    WeakDropIs(s, t, h);
  }

  /** The last dropper of an `Arc` touches the block once more. */
  lemma InvTouchLast(s: State, t: nat)
    requires Inv(s) && t < |s.threads| && s.threads[t].pc.DropImplicit?
    ensures Inv(Touch(s, t))
  {
    var s' := Touch(s, t);
    assert ThreadOk(s, t);
    TouchThread(s, t);
    assert LastCovers(s', t, s.events);
    InvThread(s, s', t);
  }

  lemma InvImplicitDrop(s: State, t: nat)
    requires Inv(s) && t < |s.threads| && s.threads[t].pc.DropImplicit?
    ensures Inv(LowerAlloc(s, t).(last := Nobody))
  {
    InvTouchLast(s, t);
    InvImplicit(Touch(s, t), t);
    assert LowerAlloc(s, t).(last := Nobody) == ImplicitLowered(Touch(s, t), t);
  }

  lemma InvLockStep(s: State, t: nat, h: nat)
    requires Inv(s) && Bounded(s) && t < |s.threads| && s.threads[t].pc == GmCas(h)
    ensures Inv(LockStep(s, t, h))
  {
    if LastAlloc(s).value == 1 {
      assert Uses(s.threads[t], h);
      InvTouch(s, t, h);
      InvLock(Touch(s, t), t, h);
      assert LockStep(s, t, h) == Locked(Touch(s, t), t, h);
    }
  }

  /** Which function a step of get_mut is. */
  lemma LockingIs(s: State, t: nat, a: Action)
    requires !s.aborted && t < |s.threads| && s.data != [] && s.alloc != []
    ensures var pc := s.threads[t].pc; var s' := Step(s, t, a);
      && (pc.GmCas? && a.Exchange? ==> s' == LockStep(s, t, pc.h))
      && (pc.GmCas? && a.Continue? ==> s' == LockFails(s, t, pc.h, a.i))
      && (pc.GmCas? && !a.Exchange? && !a.Continue? ==> s' == s)
      && (pc.GmLoad? && a.Continue? ==> s' == GmLoadStep(s, t, pc.h, a.i))
      && (pc.GmLoad? && !a.Continue? ==> s' == s)
  {
  }

  lemma UnlockingIs(s: State, t: nat, a: Action)
    requires !s.aborted && t < |s.threads| && s.data != [] && s.alloc != []
    ensures var pc := s.threads[t].pc; var s' := Step(s, t, a);
      && (pc.GmStore? ==> s' == GmStoreStep(s, t, pc.h, pc.unique))
      && (pc.GmFence? ==> s' == FenceStep(s, t, Mutating(pc.h)))
      && (pc.Mutating? && a.Write? ==> s' == WriteStep(s, t))
      && (pc.Mutating? && a.EndMut? ==> s' == EndOwn(s, t, pc.h))
      && (pc.Mutating? && !a.Write? && !a.EndMut? ==> s' == s)
  {
  }

  /** The steps of get_mut. */
  lemma InvGetMut(s: State, t: nat, a: Action)
    requires Inv(s) && Bounded(s) && !s.aborted && t < |s.threads|
    requires var pc := s.threads[t].pc; pc.GmCas? || pc.GmLoad? || pc.GmStore? || pc.GmFence? || pc.Mutating?
    ensures Inv(Step(s, t, a))
  {
    LockingIs(s, t, a);
    UnlockingIs(s, t, a);
    match s.threads[t].pc
    case GmCas(h) => if a.Continue? { InvLockFails(s, t, h, a.i); } else if a.Exchange? { InvLockStep(s, t, h); }
    case GmLoad(h) => if a.Continue? { InvGmLoad(s, t, h, a.i); }
    case GmStore(h, unique) => InvGmStore(s, t, h, unique);
    case GmFence(h) => InvFence(s, t, Mutating(h));
    case Mutating(h) => if a.Write? { InvWrite(s, t, h); } else if a.EndMut? { InvEndOwn(s, t, h); }
  }

  /** Which function a step of the drops is. */
  lemma DropsAre(s: State, t: nat, a: Action)
    requires !s.aborted && t < |s.threads| && s.data != [] && s.alloc != []
    ensures var pc := s.threads[t].pc; var s' := Step(s, t, a);
      && (pc.Dropping? ==> s' == DropStep(s, t, pc.h))
      && (pc.DropFence? ==> s' == FenceStep(s, t, DropT))
      && (pc.DropT? ==> s' == DropTStep(s, t))
      && (pc.DropImplicit? ==> s' == LowerAlloc(s, t).(last := Nobody))
      && (pc.WeakDropping? ==> s' == WeakDropStep(s, t, pc.h))
      && (pc.FreeFence? ==> s' == FenceStep(s, t, Freeing))
      && (pc.Freeing? ==> s' == FreeStep(s, t))
  {
  }

  /** The steps of the two drops, from the decrement on. */
  lemma InvDrops(s: State, t: nat, a: Action)
    requires Inv(s) && !s.aborted && t < |s.threads|
    requires var pc := s.threads[t].pc; pc.Dropping? || pc.WeakDropping? || Lasting(pc) || Ending(pc)
    ensures Inv(Step(s, t, a))
  {
    DropsAre(s, t, a);
    match s.threads[t].pc
    case Dropping(h) => InvDrop(s, t, h);
    case DropFence => InvFence(s, t, DropT);
    case DropT => InvDropT(s, t);
    case DropImplicit => InvImplicitDrop(s, t);
    case WeakDropping(h) => InvWeakDrop(s, t, h);
    case FreeFence => InvFence(s, t, Freeing);
    case Freeing => InvFree(s, t);
  }

  lemma StepInv(s: State, t: nat, a: Action)
    requires Inv(s) && Bounded(s)
    ensures Inv(Step(s, t, a))
  {
    if !s.aborted && t < |s.threads| {
      match s.threads[t].pc
      case Calm =>
        InvCalm(s, t, a);
        assert Step(s, t, a) == CalmStep(s, t, a);
      case UpLoad(_) | UpCas(_, _) | DownLoad(_) | DownCas(_, _) => InvThrough(s, t, a);
      case GmCas(_) | GmLoad(_) | GmStore(_, _) | GmFence(_) | Mutating(_) => InvGetMut(s, t, a);
      case Aborting =>
        InvAbort(s, t);
        assert Step(s, t, a) == s.(aborted := true);
      case _ => InvDrops(s, t, a);
    }
  }

  /** At every moment of the run the number of handles is bounded. */
  ghost predicate AlwaysBounded(s: State, sched: seq<(nat, Action)>)
    decreases |sched|
  {
    Bounded(s) && (sched != [] ==> AlwaysBounded(Step(s, sched[0].0, sched[0].1), sched[1..]))
  }

  lemma {:induction false} RunInv(s: State, sched: seq<(nat, Action)>)
    requires Inv(s) && AlwaysBounded(s, sched)
    ensures Inv(Run(s, sched)) && Bounded(Run(s, sched))
    decreases |sched|
  {
    if sched == [] {
    } else {
      StepInv(s, sched[0].0, sched[0].1);
      RunInv(Step(s, sched[0].0, sched[0].1), sched[1..]);
    }
  }

  lemma FewHandles(s: State)
    requires |s.handles| <= 2
    ensures Bounded(s)
  {
    SumBounded(s.handles, ArcShare);
    SumBounded(s.handles, WeakShare);
  }

  lemma {:induction false} RunSnoc(s: State, tr: seq<(nat, Action)>, t: nat, a: Action)
    ensures Run(s, tr + [(t, a)]) == Step(Run(s, tr), t, a)
    ensures AlwaysBounded(s, tr) && Bounded(Step(Run(s, tr), t, a)) ==> AlwaysBounded(s, tr + [(t, a)])
    decreases |tr|
  {
    if tr == [] {
      assert (tr + [(t, a)])[1..] == [];
    } else {
      assert (tr + [(t, a)])[1..] == tr[1..] + [(t, a)];
      RunSnoc(Step(s, tr[0].0, tr[0].1), tr[1..], t, a);
    }
  }
}
