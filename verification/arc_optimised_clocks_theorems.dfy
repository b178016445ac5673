/** What every run of the optimised `Arc` keeps under the weak memory model. */
module OptimisedClocksTheorems {
  import opened Basics
  import opened References
  import opened Sums
  import opened TwoClocks
  import opened OptimisedClocks
  import opened OptimisedClocksInv
  import opened OptimisedClocksSteps
  import opened OptimisedClocksRuns

  ghost predicate OnlyLive(s: State, h: nat) {
    && h < |s.handles| && s.handles[h].status == Live
    && forall g: nat | g < |s.handles| && g != h :: s.handles[g].status == Gone
  }

  lemma Reachable(n: nat, sched: seq<(nat, Action)>)
    requires AlwaysBounded(Init(n), sched)
    ensures Inv(Run(Init(n), sched)) && Bounded(Run(Init(n), sched))
  {
    InitInv(n);
    RunInv(Init(n), sched);
  }

  /** One `Arc` and no `Weak` counted: the handle that a thread has to itself is the only one. */
  lemma OnlyCounted(s: State, h: nat)
    requires h < |s.handles| && s.handles[h].status == Live && s.handles[h].kind == Arc
    ensures OnlyLive(s, h) <==> Arcs(s) == 1 && Weaks(s) == 0
  {
    var x := s.handles[h].(status := Gone);
    SumUpdate(s.handles, h, x, ArcShare);
    SumUpdate(s.handles, h, x, WeakShare);
    if OnlyLive(s, h) {
      SumConstant(s.handles[h := x], 0, ArcShare);
      SumConstant(s.handles[h := x], 0, WeakShare);
    } else {
      var g: nat :| g < |s.handles| && g != h && s.handles[g].status != Gone;
      SumAtLeast(s.handles[h := x], g, ArcShare);
      SumAtLeast(s.handles[h := x], g, WeakShare);
    }
  }

  // ----- get_mut -----

  /** How get_mut goes on: to Some through the store and the fence, to None by the exchange or the store. */
  ghost predicate Decides(s: State, t: nat, a: Action)
    requires t < |s.threads|
  {
    var pc := s.threads[t].pc;
    var s' := Step(s, t, a);
    && (pc.GmCas? && a.Exchange? ==>
          && t < |s'.threads|
          && (s'.threads[t].pc == GmLoad(pc.h) <==> Weaks(s) == 0 && s.locker.Nobody?))
    && (pc.GmLoad? && a.Continue? && s.threads[t].clock.data <= a.i < |s.data| ==>
          && t < |s'.threads|
          && s'.threads[t].pc == GmStore(pc.h, a.i == |s.data| - 1 && OnlyLive(s, pc.h)))
    && (pc.GmStore? ==> t < |s'.threads| && s'.threads[t].pc == if pc.unique then GmFence(pc.h) else Calm)
    && (pc.GmFence? ==> t < |s'.threads| && s'.threads[t].pc == Mutating(pc.h))
  }

  lemma LoadDecides(s: State, t: nat, i: nat)
    requires Inv(s) && !s.aborted && t < |s.threads| && s.threads[t].pc.GmLoad?
    requires s.threads[t].clock.data <= i < |s.data|
    ensures Decides(s, t, Continue(i))
  {
    var h := s.threads[t].pc.h;
    assert ThreadOk(s, t) && Uses(s.threads[t], h);
    OnlyCounted(s, h);
    if s.data[i].value == 1 { OneIsFresh(s, t, h, i); }
    assert Step(s, t, Continue(i)) == GmLoadStep(s, t, h, i);
  }

  lemma StepDecides(s: State, t: nat, a: Action)
    requires Inv(s) && Bounded(s) && !s.aborted && t < |s.threads|
    ensures Decides(s, t, a)
  {
    assert ThreadOk(s, t);
    var pc := s.threads[t].pc;
    if pc.GmStore? || pc.GmFence? {
      UnlockingIs(s, t, a);
    } else if pc.GmCas? && a.Exchange? {
      assert Uses(s.threads[t], pc.h);
      LiveIsCounted(s, t, pc.h);
      assert Step(s, t, a) == LockStep(s, t, pc.h);
    } else if pc.GmLoad? && a.Continue? && s.threads[t].clock.data <= a.i < |s.data| {
      LoadDecides(s, t, a.i);
    }
  }

  /**
   The exchange of get_mut succeeds if and only if there is no `Weak` and nobody else holds the lock. The
   Relaxed load behind it sees 1 if and only if it reads the newest message and the caller's `Arc` is the
   only handle: no stale 1 is possible. If it sees 1, the next two steps of the caller end in Some, otherwise
   the next step ends in None.
   */
  lemma GetMutDecides(n: nat, sched: seq<(nat, Action)>, t: nat, a: Action)
    requires AlwaysBounded(Init(n), sched)
    requires var s := Run(Init(n), sched); t < |s.threads| && !s.aborted
    ensures Decides(Run(Init(n), sched), t, a)
  {
    Reachable(n, sched);
    StepDecides(Run(Init(n), sched), t, a);
  }

  lemma AllKnownAlone(s: State, t: nat)
    requires Inv(s) && t < |s.threads| && s.threads[t].pc.Mutating?
    ensures Complete(s.events, s.threads[t].clock) && OnlyLive(s, s.threads[t].pc.h)
  {
    assert ThreadOk(s, t);
    var h := s.threads[t].pc.h;
    OnlyCounted(s, h);
    forall u: nat | u < |s.threads|
      ensures !Lasting(s.threads[u].pc)
    {
      assert ThreadOk(s, u);
    }
    forall e: nat | e < s.events
      ensures e in s.threads[t].clock.events
    {
      assert Covered(s, e);
      assert !(exists u: nat :: LastCovers(s, u, e));
      if g: nat :| HandleCovers(s, g, e) {
        var c: Clock :| About(s, g, c) && e in c.events;
        OwnerKnows(s, t, h, c);
      }
    }
  }

  /**
   While the `&mut T` returned by get_mut lives, the caller's `Arc` is the only handle, every access so far
   to T or to the counters happens before, and nobody else works through any handle.
   */
  lemma GetMutIsAlone(n: nat, sched: seq<(nat, Action)>, t: nat)
    requires AlwaysBounded(Init(n), sched)
    requires var s := Run(Init(n), sched); t < |s.threads| && s.threads[t].pc.Mutating?
    ensures var s := Run(Init(n), sched);
      && OnlyLive(s, s.threads[t].pc.h)
      && Complete(s.events, s.threads[t].clock)
      && (forall u: nat, g: nat | u < |s.threads| && u != t :: !Uses(s.threads[u], g))
  {
    Reachable(n, sched);
    var s := Run(Init(n), sched);
    AllKnownAlone(s, t);
    assert ThreadOk(s, t);
    forall u: nat, g: nat | u < |s.threads| && u != t
      ensures !Uses(s.threads[u], g)
    {
      if Uses(s.threads[u], g) {
        NobodyAlone(s, u, g);
      }
    }
  }

  // ----- The two lifetimes -----

  /** Every access to T, by any thread through any `Arc`, happens before T is dropped, and then no `Arc` is left. */
  lemma AccessesHappenBeforeDrop(n: nat, sched: seq<(nat, Action)>, t: nat)
    requires AlwaysBounded(Init(n), sched)
    requires var s := Run(Init(n), sched); t < |s.threads| && s.threads[t].pc.DropT?
    ensures var s := Run(Init(n), sched);
      && s.touched <= s.threads[t].clock.events
      && s.dropped == 0
      && (forall h: nat | h < |s.handles| && s.handles[h].kind == Arc :: s.handles[h].status == Gone)
  {
    Reachable(n, sched);
    var s := Run(Init(n), sched);
    TouchedKnown(s, t);
    assert ThreadOk(s, t);
    forall h: nat | h < |s.handles| && s.handles[h].kind == Arc
      ensures s.handles[h].status == Gone
    {
      SumAtLeast(s.handles, h, ArcShare);
    }
  }

  /** Every access to the block, also the drop of T, happens before it is freed, and then no handle is left. */
  lemma AccessesHappenBeforeFree(n: nat, sched: seq<(nat, Action)>, t: nat)
    requires AlwaysBounded(Init(n), sched)
    requires var s := Run(Init(n), sched); t < |s.threads| && s.threads[t].pc.Freeing?
    ensures var s := Run(Init(n), sched);
      && Complete(s.events, s.threads[t].clock)
      && s.dropped == 1 && s.freed == 0
      && (forall h: nat | h < |s.handles| :: s.handles[h].status == Gone)
  {
    Reachable(n, sched);
    var s := Run(Init(n), sched);
    AllKnown(s, t);
    assert ThreadOk(s, t);
    forall h: nat | h < |s.handles|
      ensures s.handles[h].status == Gone
    {
      SumAtLeast(s.handles, h, ArcShare);
      SumAtLeast(s.handles, h, WeakShare);
    }
  }

  /** No run has a data race or touches T or the block too late; each ends at most once, in this order. */
  lemma NoDataRace(n: nat, sched: seq<(nat, Action)>)
    requires AlwaysBounded(Init(n), sched)
    ensures var s := Run(Init(n), sched);
      && !s.bad
      && s.freed <= s.dropped <= 1
      && (forall h: nat | h < |s.handles| && s.handles[h].status == Live :: s.freed == 0)
      && (forall h: nat | IsLive(s, h, Arc) :: s.dropped == 0)
  {
    Reachable(n, sched);
    var s := Run(Init(n), sched);
    forall h: nat | h < |s.handles| && s.handles[h].status == Live
      ensures s.freed == 0 && (s.handles[h].kind == Arc ==> s.dropped == 0)
    {
      SumAtLeast(s.handles, h, ArcShare);
      SumAtLeast(s.handles, h, WeakShare);
    }
  }

  /** A thread that may read T through an `Arc` does so behind every write, and T is alive. */
  lemma ReadsAreOrdered(n: nat, sched: seq<(nat, Action)>, t: nat, h: nat)
    requires AlwaysBounded(Init(n), sched)
    requires var s := Run(Init(n), sched); t < |s.threads| && h in s.threads[t].shared && IsLive(s, h, Arc)
    ensures var s := Run(Init(n), sched); s.dropped == 0 && s.writes <= s.threads[t].clock.events
  {
    Reachable(n, sched);
    NoDataRace(n, sched);
    var s := Run(Init(n), sched);
    assert ThreadOk(s, t) && HandleOk(s, h) && Uses(s.threads[t], h);
    if u: nat :| IsMutating(s, u, h) { assert ThreadOk(s, u); }
  }

  /** No operation is in flight and every handle is gone. */
  predicate AllGone(s: State) {
    && (forall t: nat | t < |s.threads| :: s.threads[t].pc == Calm)
    && (forall h: nat | h < |s.handles| :: s.handles[h].status == Gone)
  }

  /** If no handle and no operation is left, T was dropped and the block was freed. */
  lemma NothingLeaks(n: nat, sched: seq<(nat, Action)>)
    requires AlwaysBounded(Init(n), sched) && AllGone(Run(Init(n), sched))
    ensures var s := Run(Init(n), sched); s.dropped == 1 && s.freed == 1
  {
    Reachable(n, sched);
    var s := Run(Init(n), sched);
    SumConstant(s.handles, 0, ArcShare);
    SumConstant(s.handles, 0, WeakShare);
    forall t: nat | t < |s.threads|
      ensures s.last != By(t) && s.freer != By(t)
    {
      assert ThreadOk(s, t);
    }
  }
}
