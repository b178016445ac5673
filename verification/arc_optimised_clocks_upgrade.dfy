/** What an answer of upgrade means under the weak memory model. */
module OptimisedClocksUpgrade {
  import opened Sums
  import opened OptimisedClocks
  import opened OptimisedClocksInv
  import opened OptimisedClocksRuns
  import opened OptimisedClocksTheorems

  /** The first counter changes only while it is not 0. */
  predicate DataMoves(s: State, s': State)
    requires s.data != []
  {
    || s'.data == s.data
    || (|s'.data| == |s.data| + 1 && s'.data[..|s.data|] == s.data && LastData(s).value > 0)
  }

  lemma CalmData(s: State, t: nat, a: Action)
    requires Inv(s) && t < |s.threads|
    ensures DataMoves(s, CalmStep(s, t, a))
  {
    match a
    case Clone(h) =>
      if h in s.threads[t].shared && IsLive(s, h, Arc) {
        assert Uses(s.threads[t], h);
        LiveIsCounted(s, t, h);
      }
    case CloneWeak(h) => assert CalmStep(s, t, a) == CloneWeakStep(s, t, h);
    case Read(h) => assert CalmStep(s, t, a) == ReadStep(s, t, h);
    case _ =>
  }

  lemma ThroughData(s: State, t: nat, a: Action)
    requires t < |s.threads| && s.data != [] && s.alloc != [] && Through(s.threads[t].pc)
    requires s.threads[t].pc.UpCas? ==> s.threads[t].pc.n > 0
    ensures DataMoves(s, Step(s, t, a))
  {
    match s.threads[t].pc
    case UpLoad(h) => assert a.Continue? && !s.aborted ==> Step(s, t, a) == UpLoadStep(s, t, h, a.i);
    case UpCas(h, n) =>
      assert a.Continue? && !s.aborted ==> Step(s, t, a) == UpLoadStep(s, t, h, a.i);
      assert a.Exchange? && !s.aborted ==> Step(s, t, a) == UpExchange(s, t, n);
    case DownLoad(h) => assert a.Continue? && !s.aborted ==> Step(s, t, a) == DownLoadStep(s, t, h, a.i);
    case DownCas(h, n) =>
      assert a.Continue? && !s.aborted ==> Step(s, t, a) == DownLoadStep(s, t, h, a.i);
      assert a.Exchange? && !s.aborted ==> Step(s, t, a) == DownExchange(s, t, n);
  }

  lemma GetMutData(s: State, t: nat, a: Action)
    requires !s.aborted && t < |s.threads| && s.data != [] && s.alloc != []
    requires var pc := s.threads[t].pc; pc.GmCas? || pc.GmLoad? || pc.GmStore? || pc.GmFence? || pc.Mutating?
    ensures Step(s, t, a).data == s.data
  {
    LockingIs(s, t, a);
    UnlockingIs(s, t, a);
  }

  lemma DropsData(s: State, t: nat, a: Action)
    requires !s.aborted && t < |s.threads| && s.data != [] && s.alloc != []
    requires var pc := s.threads[t].pc; pc.Dropping? || pc.WeakDropping? || Lasting(pc) || Ending(pc)
    requires s.threads[t].pc.Dropping? ==> LastData(s).value > 0
    ensures DataMoves(s, Step(s, t, a))
  {
    DropsAre(s, t, a);
  }

  lemma StepData(s: State, t: nat, a: Action)
    requires Inv(s)
    ensures DataMoves(s, Step(s, t, a))
  {
    if !s.aborted && t < |s.threads| {
      assert ThreadOk(s, t);
      match s.threads[t].pc
      case Calm =>
        CalmData(s, t, a);
        assert Step(s, t, a) == CalmStep(s, t, a);
      case UpLoad(_) | UpCas(_, _) | DownLoad(_) | DownCas(_, _) => ThroughData(s, t, a);
      case GmCas(_) | GmLoad(_) | GmStore(_, _) | GmFence(_) | Mutating(_) => GetMutData(s, t, a);
      case Aborting =>
      case Dropping(h) =>
        assert Uses(s.threads[t], h);
        LiveIsCounted(s, t, h);
        DropsData(s, t, a);
      case _ => DropsData(s, t, a);
    }
  }

  /** A count of 0 is never overwritten. */
  predicate ZeroIsLast(s: State) {
    forall i | 0 <= i < |s.data| - 1 :: s.data[i].value > 0
  }

  lemma MovesZero(s: State, s': State)
    requires s.data != [] && ZeroIsLast(s) && DataMoves(s, s')
    ensures ZeroIsLast(s')
  {
    forall i | 0 <= i < |s'.data| - 1
      ensures s'.data[i].value > 0
    {
      assert s'.data[i] == s.data[i];
    }
  }

  lemma {:induction false} RunZero(s: State, sched: seq<(nat, Action)>)
    requires Inv(s) && ZeroIsLast(s) && AlwaysBounded(s, sched)
    ensures ZeroIsLast(Run(s, sched))
    decreases |sched|
  {
    if sched == [] {
    } else {
      StepData(s, sched[0].0, sched[0].1);
      MovesZero(s, Step(s, sched[0].0, sched[0].1));
      StepInv(s, sched[0].0, sched[0].1);
      RunZero(Step(s, sched[0].0, sched[0].1), sched[1..]);
    }
  }

  /** What a load of message `i` tells upgrade: None if and only if there is no `Arc` left and the load reads so. */
  ghost predicate UpgradeDecides(s: State, t: nat, i: nat)
    requires t < |s.threads| && (s.threads[t].pc.UpLoad? || s.threads[t].pc.UpCas?)
  {
    var s' := Step(s, t, Continue(i));
    && t < |s'.threads|
    && (s'.threads[t].pc == Calm <==> i == |s.data| - 1 && Arcs(s) == 0)
    && (s'.threads[t].pc != Calm ==>
          s'.threads[t].pc == UpCas(s.threads[t].pc.h, if i < |s.data| then s.data[i].value else 0))
  }

  lemma LoadDecides(s: State, t: nat, i: nat)
    requires Inv(s) && ZeroIsLast(s) && !s.aborted && t < |s.threads|
    requires (s.threads[t].pc.UpLoad? || s.threads[t].pc.UpCas?) && s.threads[t].clock.data <= i < |s.data|
    ensures UpgradeDecides(s, t, i)
  {
    assert Step(s, t, Continue(i)) == UpLoadStep(s, t, s.threads[t].pc.h, i);
  }

  /** When the exchange of upgrade succeeds: the number that it read is that of the `Arc`s, and it makes one more. */
  ghost predicate ExchangeDecides(s: State, t: nat)
    requires t < |s.threads| && s.threads[t].pc.UpCas?
  {
    var s' := Step(s, t, Exchange);
    && (s' != s <==> Arcs(s) == s.threads[t].pc.n)
    && (s' != s ==>
          && Arcs(s) > 0 && s.dropped == 0 && Arcs(s') == Arcs(s) + 1
          && t < |s'.threads| && s'.threads[t].pc == Calm
          && |s'.handles| == |s.handles| + 1 && s'.handles[..|s.handles|] == s.handles && IsLive(s', |s.handles|, Arc))
  }

  lemma UpCasDecides(s: State, t: nat)
    requires Inv(s) && !s.aborted && t < |s.threads| && s.threads[t].pc.UpCas?
    ensures ExchangeDecides(s, t)
  {
    assert ThreadOk(s, t);
    var s' := Step(s, t, Exchange);
    assert s' == UpExchange(s, t, s.threads[t].pc.n);
    if LastData(s).value == s.threads[t].pc.n {
      SumAppend(s.handles, s'.handles[|s.handles|], ArcShare);
      assert s'.threads[t].pc != s.threads[t].pc;
    }
  }

  /**
   upgrade answers None only if no `Arc` is left, however stale its Relaxed loads may be. Its exchange succeeds
   if and only if what it read is the number of `Arc`s; then T is alive and a new `Arc` is there.
   */
  lemma UpgradeIsRight(n: nat, sched: seq<(nat, Action)>, t: nat, i: nat)
    requires AlwaysBounded(Init(n), sched)
    requires var s := Run(Init(n), sched); t < |s.threads| && !s.aborted
    ensures var s := Run(Init(n), sched);
      && ((s.threads[t].pc.UpLoad? || s.threads[t].pc.UpCas?) && s.threads[t].clock.data <= i < |s.data| ==>
            UpgradeDecides(s, t, i))
      && (s.threads[t].pc.UpCas? ==> ExchangeDecides(s, t))
  {
    Reachable(n, sched);
    InitInv(n);
    RunZero(Init(n), sched);
    var s := Run(Init(n), sched);
    if s.threads[t].pc.UpCas? { UpCasDecides(s, t); }
    if (s.threads[t].pc.UpLoad? || s.threads[t].pc.UpCas?) && s.threads[t].clock.data <= i < |s.data| {
      LoadDecides(s, t, i);
    }
  }
}
