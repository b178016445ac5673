/** Every run of the simple `Arc` under the weak memory model, beside its run of the one-counter `Arc`. */
module SimpleClocksRuns {
  import opened Usize
  import opened SimpleClocks
  import opened SimpleClocksBorrows
  import opened SimpleClocksRelation
  import opened SimpleClocksInv
  import opened SimpleClocksSteps
  import A = ArcClocks

  type Image = seq<(nat, A.Action)>

  lemma {:induction false} RunConcat(a: A.State, first: Image, rest: Image)
    ensures A.Run(a, first + rest) == A.Run(A.Run(a, first), rest)
    decreases |first|
  {
    if first == [] {
      assert first + rest == rest;
    } else {
      assert (first + rest)[1..] == first[1..] + rest;
      RunConcat(A.Step(a, first[0].0, first[0].1), first[1..], rest);
    }
  }

  /** One step of the image of a thread that works through borrowed handles or not at all. */
  lemma CalmRun(s: State, a: A.State, t: nat, act: A.Action)
    requires Related(s, a) && !s.aborted && t < |s.threads|
    requires PcImage(s.threads[t].pc) == A.Calm && !s.threads[t].pc.Aborting?
    ensures A.Run(a, [(t, act)]) == A.CalmStep(a, t, act)
  {
    assert ThreadRelated(s.threads[t], a.threads[t]);
    assert [(t, act)][1..] == [];
  }

  lemma AccessRun(s: State, a: A.State, t: nat, h: nat) returns (more: Image)
    requires Related(s, a) && !s.aborted && t < |s.threads|
    requires PcImage(s.threads[t].pc) == A.Calm && !s.threads[t].pc.Aborting?
    ensures A.Run(a, more) == A.AccessStep(a, t, h)
  {
    more := [(t, A.Access(h))];
    CalmRun(s, a, t, A.Access(h));
  }

  lemma CloneRun(s: State, a: A.State, t: nat, h: nat) returns (more: Image)
    requires Related(s, a) && !s.aborted && t < |s.threads|
    requires PcImage(s.threads[t].pc) == A.Calm && !s.threads[t].pc.Aborting?
    ensures A.Run(a, more) == A.CloneStep(a, t, h)
  {
    more := [(t, A.Clone(h))];
    CalmRun(s, a, t, A.Clone(h));
  }

  lemma ShareRun(s: State, a: A.State, t: nat, h: nat) returns (more: Image)
    requires Related(s, a) && !s.aborted && t < |s.threads|
    requires PcImage(s.threads[t].pc) == A.Calm && !s.threads[t].pc.Aborting?
    ensures A.Run(a, more) == A.BeginSharedStep(a, t, h)
  {
    more := [(t, A.BeginShared(h))];
    CalmRun(s, a, t, A.BeginShared(h));
  }

  /** One step of the image of a thread in get_mut or about to free the block. */
  lemma AloneRun(s: State, a: A.State, t: nat, act: A.Action)
    requires Related(s, a) && !s.aborted && t < |s.threads|
    ensures var pc := s.threads[t].pc; var a' := A.Run(a, [(t, act)]);
      && (pc.GmLoad? && act.Continue? ==> a' == A.GmLoadStep(a, t, pc.h, act.i))
      && (pc.GmFence? ==> a' == A.FenceStep(a, t, A.Mutating(pc.h)))
      && (pc.Mutating? && act.Write? ==> a' == A.WriteStep(a, t))
      && (pc.Mutating? && act.EndMut? ==> a' == A.EndOwn(a, t, pc.h))
      && (pc.FreeFence? ==> a' == A.FenceStep(a, t, A.Freeing))
      && (pc.Freeing? ==> a' == A.FreeStep(a, t))
  {
    assert ThreadRelated(s.threads[t], a.threads[t]);
    assert [(t, act)][1..] == [];
  }

  // ----- Every step -----

  /** Borrows that begin or end. */
  lemma SimShared(s: State, a: A.State, t: nat, h: nat, begin: bool) returns (more: Image)
    requires Inv(s, a) && !s.aborted && t < |s.threads| && s.threads[t].pc.Calm?
    ensures Inv(if begin then BeginSharedStep(s, t, h) else EndSharedStep(s, t, h), A.Run(a, more))
  {
    more := [];
    if begin && CanShare(s, h) {
      InvBeginShared(s, a, t, h);
      more := ShareRun(s, a, t, h);
    } else if !begin && h in s.threads[t].shared {
      InvEndShared(s, a, t, h);
      more := [(t, A.EndShared(h))];
      CalmRun(s, a, t, A.EndShared(h));
    }
  }

  lemma SimOwn(s: State, a: A.State, t: nat, h: nat, kind: Kind, pc: Pc) returns (more: Image)
    requires Inv(s, a) && !s.aborted && t < |s.threads| && s.threads[t].pc.Calm?
    requires (kind == Arc && (pc == Dropping(h) || pc == GmLoad(h))) || (kind == Weak && pc == DropAlloc(h))
    ensures Inv(BeginOwnStep(s, t, h, kind, pc), A.Run(a, more))
  {
    more := [];
    if CanOwn(s, h, kind) {
      if pc == GmLoad(h) {
        InvAsk(s, a, t, h);
        more := [(t, A.BeginGetMut(h))];
        CalmRun(s, a, t, A.BeginGetMut(h));
      } else {
        InvLeave(s, a, t, h, kind, pc);
        more := ShareRun(s, a, t, h);
      }
    }
  }

  lemma SimRead(s: State, a: A.State, t: nat, h: nat) returns (more: Image)
    requires Inv(s, a) && !s.aborted && t < |s.threads| && s.threads[t].pc.Calm?
    ensures Inv(ReadStep(s, t, h), A.Run(a, more))
  {
    more := [];
    if h in s.threads[t].shared && IsLive(s, h, Arc) {
      InvRead(s, a, t, h);
      more := AccessRun(s, a, t, h);
    }
  }

  lemma SimNew(s: State, a: A.State, t: nat, h: nat, kind: Kind, pc: Pc) returns (more: Image)
    requires Inv(s, a) && !s.aborted && t < |s.threads| && s.threads[t].pc.Calm? && h in s.threads[t].shared
    requires (kind == Weak && pc == Calm) || (kind == Half && pc == Cloning(h, |s.handles|) && IsLive(s, h, Arc))
    ensures Inv(WeakCloneStep(s, t, kind, pc), A.Run(a, more))
  {
    InvNew(s, a, t, h, kind, pc);
    more := CloneRun(s, a, t, h);
  }

  lemma SimUse(s: State, a: A.State, t: nat, act: Action) returns (more: Image)
    requires Inv(s, a) && !s.aborted && t < |s.threads| && s.threads[t].pc.Calm?
    requires (act.Clone? || act.NewWeak? || act.BeginUpgrade?) && act.h in s.threads[t].shared
    ensures Inv(CalmStep(s, t, act), A.Run(a, more))
  {
    more := [];
    match act
    case Clone(h) =>
      assert CalmStep(s, t, act) == CloneStep(s, t, h);
      if IsLive(s, h, Arc) { more := SimNew(s, a, t, h, Half, Cloning(h, |s.handles|)); }
    case NewWeak(h) =>
      assert CalmStep(s, t, act) == WeakCloneStep(s, t, Weak, Calm);
      more := SimNew(s, a, t, h, Weak, Calm);
    case BeginUpgrade(h) =>
      assert CalmStep(s, t, act) == BeginUpgradeStep(s, t, h);
      if IsLive(s, h, Weak) { InvBeginUpgrade(s, a, t, h); }
  }

  lemma SimCalm(s: State, a: A.State, t: nat, act: Action) returns (more: Image)
    requires Inv(s, a) && !s.aborted && t < |s.threads| && s.threads[t].pc.Calm?
    ensures Inv(CalmStep(s, t, act), A.Run(a, more))
  {
    more := [];
    match act
    case BeginShared(h) => more := SimShared(s, a, t, h, true);
    case EndShared(h) => more := SimShared(s, a, t, h, false);
    case BeginDrop(h) => more := SimOwn(s, a, t, h, Arc, Dropping(h));
    case BeginDropWeak(h) => more := SimOwn(s, a, t, h, Weak, DropAlloc(h));
    case BeginGetMut(h) => more := SimOwn(s, a, t, h, Arc, GmLoad(h));
    case Read(h) => more := SimRead(s, a, t, h);
    case Write | EndMut | Exchange | Continue(_) =>
    case _ => if act.h in s.threads[t].shared { more := SimUse(s, a, t, act); }
  }

  lemma SimUpLoad(s: State, a: A.State, t: nat, h: nat, n: nat, i: nat) returns (more: Image)
    requires Inv(s, a) && !s.aborted && t < |s.threads|
    requires s.threads[t].pc == UpLoad(h) || s.threads[t].pc == UpCas(h, n)
    ensures Inv(UpLoadStep(s, t, h, i), A.Run(a, more))
  {
    more := [];
    if s.threads[t].clock.data <= i < |s.data| {
      InvUpLoad(s, a, t, h, n, i);
      more := AccessRun(s, a, t, h);
    }
  }

  lemma SimUpExchange(s: State, a: A.State, t: nat, h: nat, n: nat) returns (more: Image)
    requires Inv(s, a) && !s.aborted && t < |s.threads| && s.threads[t].pc == UpCas(h, n)
    ensures Inv(UpExchange(s, t, h, n), A.Run(a, more))
  {
    more := [];
    if LastData(s).value == n {
      InvUpExchange(s, a, t, h, n);
      more := AccessRun(s, a, t, h);
    }
  }

  /** The second increments of clone and upgrade. */
  lemma SimSecond(s: State, a: A.State, t: nat) returns (more: Image)
    requires Inv(s, a) && !s.aborted && t < |s.threads|
    ensures s.threads[t].pc.Cloning? ==> Inv(CloneDataStep(s, t, s.threads[t].pc.g), A.Run(a, more))
    ensures s.threads[t].pc.UpAlloc? ==> Inv(WeakCloneStep(s, t, Arc, Calm), A.Run(a, more))
  {
    more := [];
    assert BorrowsOk(s, t);
    if s.threads[t].pc.Cloning? {
      InvCloneData(s, a, t, s.threads[t].pc.h, s.threads[t].pc.g);
      more := AccessRun(s, a, t, s.threads[t].pc.h);
    } else if s.threads[t].pc.UpAlloc? {
      InvNew(s, a, t, s.threads[t].pc.h, Arc, Calm);
      more := CloneRun(s, a, t, s.threads[t].pc.h);
    }
  }

  lemma SimThrough(s: State, a: A.State, t: nat, act: Action) returns (more: Image)
    requires Inv(s, a) && !s.aborted && t < |s.threads| && Through(s.threads[t].pc)
    ensures Inv(Step(s, t, act), A.Run(a, more))
  {
    more := [];
    match s.threads[t].pc
    case Cloning(_, g) =>
      assert Step(s, t, act) == CloneDataStep(s, t, g);
      more := SimSecond(s, a, t);
    case UpLoad(h) =>
      assert Step(s, t, act) == if act.Continue? then UpLoadStep(s, t, h, act.i) else s;
      if act.Continue? { more := SimUpLoad(s, a, t, h, 0, act.i); }
    case UpCas(h, n) =>
      if act.Continue? {
        assert Step(s, t, act) == UpLoadStep(s, t, h, act.i);
        more := SimUpLoad(s, a, t, h, n, act.i);
      } else if act.Exchange? {
        assert Step(s, t, act) == UpExchange(s, t, h, n);
        more := SimUpExchange(s, a, t, h, n);
      }
    case UpAlloc(_) =>
      assert Step(s, t, act) == WeakCloneStep(s, t, Arc, Calm);
      more := SimSecond(s, a, t);
  }

  /** The last decrement of a handle ends its borrow in the image and then drops it. */
  lemma LastDropRun(s: State, a: A.State, t: nat, h: nat) returns (more: Image)
    requires Related(s, a) && Borrowed(s) && !s.aborted && t < |s.threads| && s.threads[t].pc == DropAlloc(h)
    ensures A.Run(a, more) == A.DropStep(Handover(a, t, h), t, h)
  {
    HandedOver(s, a, t, h);
    CalmRun(s, a, t, A.EndShared(h));
    assert ThreadRelated(s.threads[t], a.threads[t]);
    var a1 := A.EndSharedStep(a, t, h);
    var a2 := Handover(a, t, h);
    assert A.Step(a1, t, A.BeginDrop(h)) == a2;
    assert A.Step(a2, t, A.Continue(0)) == A.DropStep(a2, t, h);
    var rest: Image := [(t, A.BeginDrop(h)), (t, A.Continue(0))];
    assert rest[1..] == [(t, A.Continue(0))];
    assert rest[1..][1..] == [];
    assert A.Run(a2, rest[1..]) == A.Run(A.DropStep(a2, t, h), []) == A.DropStep(a2, t, h);
    assert A.Run(a1, rest) == A.Run(a2, rest[1..]);
    more := [(t, A.EndShared(h))] + rest;
    RunConcat(a, [(t, A.EndShared(h))], rest);
  }

  lemma SimLastDrop(s: State, a: A.State, t: nat, h: nat) returns (more: Image)
    requires Inv(s, a) && !s.aborted && t < |s.threads| && s.threads[t].pc == DropAlloc(h)
    ensures Inv(DropAllocStep(s, t, h), A.Run(a, more))
  {
    InvDropAlloc(s, a, t, h);
    more := LastDropRun(s, a, t, h);
  }

  lemma SimDropping(s: State, a: A.State, t: nat, h: nat) returns (more: Image)
    requires Inv(s, a) && !s.aborted && t < |s.threads|
    requires s.threads[t].pc == Dropping(h) || s.threads[t].pc == DropT(h)
    ensures s.threads[t].pc.Dropping? ==> Inv(DropStep(s, t, h), A.Run(a, more))
    ensures s.threads[t].pc.DropT? ==> Inv(DropTStep(s, t, h), A.Run(a, more))
  {
    more := AccessRun(s, a, t, h);
    if s.threads[t].pc.Dropping? { InvDrop(s, a, t, h); } else { InvDropT(s, a, t, h); }
  }

  lemma SimLeaving(s: State, a: A.State, t: nat, act: Action) returns (more: Image)
    requires Inv(s, a) && !s.aborted && t < |s.threads| && Leaving(s.threads[t].pc)
    ensures Inv(Step(s, t, act), A.Run(a, more))
  {
    more := [];
    match s.threads[t].pc
    case Dropping(h) =>
      assert Step(s, t, act) == DropStep(s, t, h);
      more := SimDropping(s, a, t, h);
    case DropFence(h) =>
      assert Step(s, t, act) == FenceStep(s, t, DropT(h));
      InvDropFence(s, a, t, h);
    case DropT(h) =>
      assert Step(s, t, act) == DropTStep(s, t, h);
      more := SimDropping(s, a, t, h);
    case DropAlloc(h) =>
      assert Step(s, t, act) == DropAllocStep(s, t, h);
      more := SimLastDrop(s, a, t, h);
  }

  lemma SimLoads(s: State, a: A.State, t: nat, h: nat, i: nat) returns (more: Image)
    requires Inv(s, a) && !s.aborted && t < |s.threads| && s.threads[t].pc == GmLoad(h)
    ensures Inv(GmLoadStep(s, t, h, i), A.Run(a, more))
  {
    more := [];
    if s.threads[t].clock.alloc <= i < |s.alloc| {
      InvGmLoad(s, a, t, h, i);
      more := [(t, A.Continue(i))];
      AloneRun(s, a, t, A.Continue(i));
    }
  }

  lemma SimMutates(s: State, a: A.State, t: nat, h: nat, end: bool) returns (more: Image)
    requires Inv(s, a) && !s.aborted && t < |s.threads| && s.threads[t].pc == Mutating(h)
    ensures Inv(if end then EndOwn(s, t, h) else WriteStep(s, t), A.Run(a, more))
  {
    var act := if end then A.EndMut else A.Write;
    more := [(t, act)];
    AloneRun(s, a, t, act);
    if end { InvEndMut(s, a, t, h); } else { InvWrite(s, a, t, h); }
  }

  lemma SimFenceStep(s: State, a: A.State, t: nat, pc: Pc) returns (more: Image)
    requires Inv(s, a) && !s.aborted && t < |s.threads|
    requires (s.threads[t].pc.FreeFence? && pc == Freeing)
             || (s.threads[t].pc.GmFence? && pc == Mutating(s.threads[t].pc.h))
    ensures Inv(FenceStep(s, t, pc), A.Run(a, more))
  {
    InvFence(s, a, t, pc);
    more := [(t, A.Continue(0))];
    AloneRun(s, a, t, A.Continue(0));
  }

  lemma SimAsking(s: State, a: A.State, t: nat, act: Action) returns (more: Image)
    requires Inv(s, a) && !s.aborted && t < |s.threads| && Asking(s.threads[t].pc)
    ensures Inv(Step(s, t, act), A.Run(a, more))
  {
    more := [];
    match s.threads[t].pc
    case GmLoad(h) =>
      assert Step(s, t, act) == if act.Continue? then GmLoadStep(s, t, h, act.i) else s;
      if act.Continue? { more := SimLoads(s, a, t, h, act.i); }
    case GmFence(h) =>
      assert Step(s, t, act) == FenceStep(s, t, Mutating(h));
      more := SimFenceStep(s, a, t, Mutating(h));
    case Mutating(h) =>
      assert Step(s, t, act) == if act.Write? then WriteStep(s, t) else if act.EndMut? then EndOwn(s, t, h) else s;
      if act.Write? || act.EndMut? { more := SimMutates(s, a, t, h, act.EndMut?); }
  }

  lemma SimFreeing(s: State, a: A.State, t: nat, act: Action) returns (more: Image)
    requires Inv(s, a) && !s.aborted && t < |s.threads| && (s.threads[t].pc.FreeFence? || s.threads[t].pc.Freeing?)
    ensures Inv(Step(s, t, act), A.Run(a, more))
  {
    if s.threads[t].pc.FreeFence? {
      more := SimFenceStep(s, a, t, Freeing);
    } else {
      InvFree(s, a, t);
      more := [(t, A.Continue(0))];
      AloneRun(s, a, t, A.Continue(0));
    }
  }

  /** Every step keeps the invariant, with at most three steps of the one-counter `Arc`. */
  lemma StepSim(s: State, a: A.State, t: nat, act: Action) returns (more: Image)
    requires Inv(s, a)
    ensures Inv(Step(s, t, act), A.Run(a, more))
  {
    more := [];
    if !s.aborted && t < |s.threads| {
      match s.threads[t].pc
      case Calm =>
        more := SimCalm(s, a, t, act);
        assert Step(s, t, act) == CalmStep(s, t, act);
      case Cloning(_, _) | UpLoad(_) | UpCas(_, _) | UpAlloc(_) => more := SimThrough(s, a, t, act);
      case Dropping(_) | DropFence(_) | DropT(_) | DropAlloc(_) => more := SimLeaving(s, a, t, act);
      case Aborting =>
        InvAbort(s, a, t);
        assert Step(s, t, act) == s.(aborted := true);
      case GmLoad(_) | GmFence(_) | Mutating(_) => more := SimAsking(s, a, t, act);
      case FreeFence | Freeing => more := SimFreeing(s, a, t, act);
    }
  }

  lemma {:induction false} RunSim(s: State, a: A.State, sched: seq<(nat, Action)>) returns (image: Image)
    requires Inv(s, a)
    ensures Inv(Run(s, sched), A.Run(a, image))
    decreases |sched|
  {
    image := [];
    if sched == [] {
    } else {
      var more := StepSim(s, a, sched[0].0, sched[0].1);
      var rest := RunSim(Step(s, sched[0].0, sched[0].1), A.Run(a, more), sched[1..]);
      RunConcat(a, more, rest);
      image := more + rest;
    }
  }

  lemma Reachable(n: nat, sched: seq<(nat, Action)>) returns (image: Image)
    requires n <= MAX / 2
    ensures Inv(Run(Init(n), sched), A.Run(A.Init(n), image))
  {
    InitInv(n);
    image := RunSim(Init(n), A.Init(n), sched);
  }

  /**
   Every run of the simple form is, seen through the second counter, a run of the one-counter `Arc`: the
   same modification order, the same handles and the same accesses, with clocks that know at least as much.
   */
  lemma SecondCounterRefinesArc(n: nat, sched: seq<(nat, Action)>)
    requires n <= MAX / 2
    ensures exists image: Image :: Related(Run(Init(n), sched), A.Run(A.Init(n), image))
  {
    var image := Reachable(n, sched);
  }
}
