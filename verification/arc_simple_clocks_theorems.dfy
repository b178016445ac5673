/** What every run of the simple `Arc` keeps under the weak memory model. */
module SimpleClocksTheorems {
  import opened Basics
  import opened References
  import opened Sums
  import opened Usize
  import opened TwoClocks
  import opened SimpleClocks
  import opened SimpleClocksBorrows
  import opened SimpleClocksRelation
  import opened SimpleClocksInv
  import opened SimpleClocksSteps
  import opened SimpleClocksRuns
  import A = ArcClocks

  ghost predicate OnlyLive(s: State, h: nat) {
    && h < |s.handles| && s.handles[h].status == Live
    && forall g: nat | g < |s.handles| && g != h :: s.handles[g].status == Gone
  }

  lemma OnlyLiveImage(s: State, a: A.State, h: nat)
    requires Related(s, a)
    ensures OnlyLive(s, h) <==> A.OnlyLive(a, h)
  {
    assert forall g: nat | g < |s.handles| :: HandleRelated(s.handles[g], a.handles[g]);
  }

  // ----- get_mut -----

  /** Whatever step thread `t` takes now, it then has the `&mut T` of handle `h`. */
  ghost predicate GrantIsNext(s: State, t: nat, h: nat) {
    forall a: Action :: t < |Step(s, t, a).threads| && Step(s, t, a).threads[t].pc == Mutating(h)
  }

  /** What the load of message `i` tells get_mut: to go on to Some, or to end with None. */
  ghost predicate Decides(s: State, t: nat, i: nat)
    requires t < |s.threads| && s.threads[t].pc.GmLoad?
  {
    var h := s.threads[t].pc.h;
    var s' := Step(s, t, Continue(i));
    && t < |s'.threads|
    && (s'.threads[t].pc == GmFence(h) <==> i == |s.alloc| - 1 && OnlyLive(s, h))
    && (s'.threads[t].pc == GmFence(h) ==> GrantIsNext(s', t, h))
    && (s'.threads[t].pc != GmFence(h) ==> s'.threads[t].pc == Calm)
  }

  lemma FenceGrants(s: State, t: nat, h: nat)
    requires !s.aborted && s.data != [] && s.alloc != [] && t < |s.threads| && s.threads[t].pc == GmFence(h)
    ensures GrantIsNext(s, t, h)
  {
    forall a: Action
      ensures t < |Step(s, t, a).threads| && Step(s, t, a).threads[t].pc == Mutating(h)
    {
      assert Step(s, t, a) == FenceStep(s, t, Mutating(h));
    }
  }

  /** get_mut goes on as the value says, here and in the image. */
  lemma LoadGoesOn(s: State, t: nat, i: nat)
    requires !s.aborted && s.data != [] && t < |s.threads| && s.threads[t].pc.GmLoad?
    requires s.threads[t].clock.alloc <= i < |s.alloc| && s.threads[t].pc.h < |s.handles|
    ensures var s' := Step(s, t, Continue(i));
      && !s'.aborted && s'.data == s.data && s'.alloc == s.alloc
      && (s.alloc[i].value == 1 ==> s'.handles == s.handles)
      && t < |s'.threads| && s'.threads[t].pc == if s.alloc[i].value == 1 then GmFence(s.threads[t].pc.h) else Calm
  {
    assert Step(s, t, Continue(i)) == GmLoadStep(s, t, s.threads[t].pc.h, i);
  }

  lemma ImageGoesOn(a: A.State, t: nat, i: nat)
    requires !a.aborted && t < |a.threads| && a.threads[t].pc.GmLoad?
    requires a.threads[t].clock.at <= i < |a.msgs| && a.threads[t].pc.h < |a.handles|
    ensures var a' := A.Step(a, t, A.Continue(i));
      t < |a'.threads| && (a'.threads[t].pc.GmFence? <==> a.msgs[i].value == 1)
  {
    assert A.Step(a, t, A.Continue(i)) == A.GmLoadStep(a, t, a.threads[t].pc.h, i);
  }

  lemma LoadDecides(s: State, a: A.State, t: nat, i: nat)
    requires Inv(s, a) && !s.aborted
    requires t < |s.threads| && s.threads[t].pc.GmLoad? && s.threads[t].clock.alloc <= i < |s.alloc|
    ensures Decides(s, t, i)
  {
    var h := s.threads[t].pc.h;
    assert ThreadRelated(s.threads[t], a.threads[t]) && BorrowsOk(s, t) && MsgRelated(s.alloc[i], a.msgs[i]);
    LoadGoesOn(s, t, i);
    A.LoadDecides(a, t, i);
    ImageGoesOn(a, t, i);
    OnlyLiveImage(s, a, h);
    if s.alloc[i].value == 1 { FenceGrants(Step(s, t, Continue(i)), t, h); }
  }

  /**
   The Relaxed load of the second counter alone decides get_mut: it sees 1 if and only if it reads the newest
   message and the caller's `Arc` is the only handle, and then the next step of the caller has the `&mut T`;
   otherwise the call ends there. No stale 1 is possible.
   */
  lemma GetMutDecides(n: nat, sched: seq<(nat, Action)>, t: nat, i: nat)
    requires n <= MAX / 2
    requires var s := Run(Init(n), sched);
      t < |s.threads| && !s.aborted && s.threads[t].pc.GmLoad? && s.threads[t].clock.alloc <= i < |s.alloc|
    ensures Decides(Run(Init(n), sched), t, i)
  {
    var image := Reachable(n, sched);
    LoadDecides(Run(Init(n), sched), A.Run(A.Init(n), image), t, i);
  }

  /** A thread that works through a handle uses one that is live. */
  lemma UsedIsLive(s: State, u: nat, g: nat)
    requires Borrowed(s) && u < |s.threads| && Uses(s.threads[u], g)
    ensures g < |s.handles| && s.handles[g].status == Live
  {
    assert BorrowsOk(s, u);
    assert Owns(s.threads[u].pc, g) ==> OwnedOk(s, u, g);
  }

  /** Whoever has the only handle to themselves is the only one at work. */
  lemma NobodyElse(s: State, t: nat, h: nat, u: nat)
    requires Borrowed(s) && t < |s.threads| && Owns(s.threads[t].pc, h) && OnlyLive(s, h)
    requires u < |s.threads| && u != t
    ensures forall g: nat :: !Uses(s.threads[u], g)
  {
    assert BorrowsOk(s, t) && OwnedOk(s, t, h);
    forall g: nat
      ensures !Uses(s.threads[u], g)
    {
      if Uses(s.threads[u], g) { UsedIsLive(s, u, g); }
    }
  }

  /** The only handle is the only reference in the first counter, too. */
  lemma OnlyCounted(s: State, t: nat, h: nat)
    requires Borrowed(s) && DataOk(s) && t < |s.threads| && Asking(s.threads[t].pc) && s.threads[t].pc.h == h
    requires OnlyLive(s, h)
    ensures LastData(s).value == 1
  {
    assert BorrowsOk(s, t) && Owns(s.threads[t].pc, h);
    forall u: nat | u < |s.threads|
      ensures Rising(s.threads[u]) == 0
    {
      assert BorrowsOk(s, u);
      if u != t {
        NobodyElse(s, t, h, u);
        assert s.threads[u].pc.UpAlloc? ==> Uses(s.threads[u], s.threads[u].pc.h);
      }
    }
    SumConstant(s.threads, 0, Rising);
    var x := s.handles[h].(status := Gone);
    SumUpdate(s.handles, h, x, ArcShare);
    SumConstant(s.handles[h := x], 0, ArcShare);
  }

  /**
   While the `&mut T` returned by get_mut lives, the caller's `Arc` is the only handle and the only reference
   in both counters, every access so far happens before, and nobody else works through any handle.
   */
  lemma GetMutIsAlone(n: nat, sched: seq<(nat, Action)>, t: nat)
    requires n <= MAX / 2
    requires var s := Run(Init(n), sched); t < |s.threads| && s.threads[t].pc.Mutating?
    ensures var s := Run(Init(n), sched);
      && s.data != [] && s.alloc != [] && LastData(s).value == LastAlloc(s).value == 1
      && OnlyLive(s, s.threads[t].pc.h)
      && Complete(s.events, s.threads[t].clock)
      && (forall u: nat, g: nat | u < |s.threads| && u != t :: !Uses(s.threads[u], g))
  {
    var image := Reachable(n, sched);
    var s, a := Run(Init(n), sched), A.Run(A.Init(n), image);
    var h := s.threads[t].pc.h;
    AllKnown(s, a, t);
    assert ThreadRelated(s.threads[t], a.threads[t]) && MsgRelated(LastAlloc(s), A.Last(a));
    A.GetMutIsAlone(n, image, t);
    assert A.ThreadOk(a, t);
    OnlyLiveImage(s, a, h);
    OnlyCounted(s, t, h);
    forall u: nat, g: nat | u < |s.threads| && u != t
      ensures !Uses(s.threads[u], g)
    {
      NobodyElse(s, t, h, u);
    }
  }

  // ----- The two lifetimes -----

  /** Every access to T, by any thread through any `Arc`, happens before T is dropped, and then no `Arc` is left. */
  lemma AccessesHappenBeforeDrop(n: nat, sched: seq<(nat, Action)>, t: nat)
    requires n <= MAX / 2
    requires var s := Run(Init(n), sched); t < |s.threads| && s.threads[t].pc.DropT?
    ensures var s := Run(Init(n), sched);
      && s.touched <= s.threads[t].clock.events
      && s.dropped == 0
      && (forall h: nat :: !IsLive(s, h, Arc))
  {
    var image := Reachable(n, sched);
    TouchedKnown(Run(Init(n), sched), t, Run(Init(n), sched).threads[t].pc.h);
  }

  /** No handle is left: nobody is in the middle of anything that would count, and T was dropped. */
  lemma GoneMeansDropped(s: State)
    requires Borrowed(s) && DataOk(s) && forall h: nat | h < |s.handles| :: s.handles[h].status == Gone
    ensures LastData(s).value == 0 && s.dropped == 1
  {
    forall u: nat | u < |s.threads|
      ensures Rising(s.threads[u]) == 0 && s.last != By(u)
    {
      assert BorrowsOk(s, u) && RoleOk(s, u);
    }
    SumConstant(s.threads, 0, Rising);
    SumConstant(s.handles, 0, ArcShare);
  }

  lemma ZeroMeansGone(s: State, a: A.State)
    requires Related(s, a) && A.Inv(a) && LastAlloc(s).value == 0
    ensures forall h: nat | h < |s.handles| :: s.handles[h].status == Gone
  {
    assert MsgRelated(LastAlloc(s), A.Last(a));
    forall h: nat | h < |s.handles|
      ensures s.handles[h].status == Gone
    {
      assert HandleRelated(s.handles[h], a.handles[h]);
      SumAtLeast(a.handles, h, A.Share);
    }
  }

  /** Every access to the block, also the drop of T, happens before it is freed, and then no handle is left. */
  lemma AccessesHappenBeforeFree(n: nat, sched: seq<(nat, Action)>, t: nat)
    requires n <= MAX / 2
    requires var s := Run(Init(n), sched); t < |s.threads| && s.threads[t].pc.Freeing?
    ensures var s := Run(Init(n), sched);
      && Complete(s.events, s.threads[t].clock)
      && s.dropped == 1 && s.freed == 0
      && (forall h: nat | h < |s.handles| :: s.handles[h].status == Gone)
  {
    var image := Reachable(n, sched);
    var s, a := Run(Init(n), sched), A.Run(A.Init(n), image);
    AllKnown(s, a, t);
    assert ThreadRelated(s.threads[t], a.threads[t]) && MsgRelated(LastAlloc(s), A.Last(a)) && A.ThreadOk(a, t);
    ZeroMeansGone(s, a);
    GoneMeansDropped(s);
  }

  /**
   No run has a data race, touches T or the block too late or fails the assert of upgrade; each of the two
   ends at most once, in this order, and not under a live handle.
   */
  lemma NoDataRace(n: nat, sched: seq<(nat, Action)>)
    requires n <= MAX / 2
    ensures var s := Run(Init(n), sched);
      && !s.bad
      && s.freed <= s.dropped <= 1
      && (forall h: nat | h < |s.handles| && s.handles[h].status == Live :: s.freed == 0)
      && (forall h: nat | IsLive(s, h, Arc) :: s.dropped == 0)
  {
    var image := Reachable(n, sched);
    var s, a := Run(Init(n), sched), A.Run(A.Init(n), image);
    A.NoDataRace(n, image);
    assert forall h: nat | h < |s.handles| :: HandleRelated(s.handles[h], a.handles[h]);
    forall h: nat | IsLive(s, h, Arc) ensures s.dropped == 0 { DataLives(s, h); }
    if s.freed > 0 {
      assert MsgRelated(LastAlloc(s), A.Last(a));
      ZeroMeansGone(s, a);
      GoneMeansDropped(s);
    }
  }

  /** A thread that may read T through an `Arc` does so behind every write, and T is alive. */
  lemma ReadsAreOrdered(n: nat, sched: seq<(nat, Action)>, t: nat, h: nat)
    requires n <= MAX / 2
    requires var s := Run(Init(n), sched); t < |s.threads| && h in s.threads[t].shared && IsLive(s, h, Arc)
    ensures var s := Run(Init(n), sched); s.dropped == 0 && s.writes <= s.threads[t].clock.events
  {
    var image := Reachable(n, sched);
    var s, a := Run(Init(n), sched), A.Run(A.Init(n), image);
    DataLives(s, h);
    assert ThreadRelated(s.threads[t], a.threads[t]);
    A.ReadsAreOrdered(n, image, t, h);
  }

  /** No operation is in flight and every handle is gone. */
  predicate AllGone(s: State) {
    && (forall t: nat | t < |s.threads| :: s.threads[t].pc == Calm)
    && (forall h: nat | h < |s.handles| :: s.handles[h].status == Gone)
  }

  /** If no handle and no operation is left, T was dropped and the block was freed. */
  lemma NothingLeaks(n: nat, sched: seq<(nat, Action)>)
    requires n <= MAX / 2 && AllGone(Run(Init(n), sched))
    ensures var s := Run(Init(n), sched); s.dropped == 1 && s.freed == 1
  {
    var image := Reachable(n, sched);
    var s, a := Run(Init(n), sched), A.Run(A.Init(n), image);
    GoneMeansDropped(s);
    assert forall h: nat | h < |s.handles| :: HandleRelated(s.handles[h], a.handles[h]);
    assert forall t: nat | t < |s.threads| :: ThreadRelated(s.threads[t], a.threads[t]);
    A.NothingLeaks(n, image);
  }

  // ----- upgrade -----

  /** What a load of message `i` tells upgrade: None if and only if there is no `Arc` left and the load reads so. */
  ghost predicate UpgradeDecides(s: State, t: nat, i: nat)
    requires t < |s.threads| && (s.threads[t].pc.UpLoad? || s.threads[t].pc.UpCas?)
  {
    var s' := Step(s, t, Continue(i));
    && t < |s'.threads|
    && (s'.threads[t].pc == Calm <==> i == |s.data| - 1 && Arcs(s) == 0)
    && (s'.threads[t].pc != Calm ==>
          s'.threads[t].pc == UpCas(s.threads[t].pc.h, if i < |s.data| then s.data[i].value else 0))
  }

  lemma UpLoadDecides(s: State, t: nat, i: nat)
    requires Borrowed(s) && DataOk(s) && !s.aborted && t < |s.threads|
    requires (s.threads[t].pc.UpLoad? || s.threads[t].pc.UpCas?) && s.threads[t].clock.data <= i < |s.data|
    ensures UpgradeDecides(s, t, i)
  {
    assert Step(s, t, Continue(i)) == UpLoadStep(s, t, s.threads[t].pc.h, i);
  }

  /** The number of handles that keep the block. */
  function Keepers(s: State): nat {
    Sum(s.handles, Share)
  }

  /** A new `Arc` is there, made by a call of thread `t` that ends with it. */
  predicate Made(s: State, s': State, t: nat) {
    && t < |s'.threads| && s'.threads[t].pc == Calm
    && |s'.handles| == |s.handles| + 1 && s'.handles[..|s.handles|] == s.handles && IsLive(s', |s.handles|, Arc)
  }

  /**
   When the exchange of upgrade succeeds: the number that it read is that of the `Arc`s. The next step of the
   caller then makes the new `Arc`, unless the process is about to abort over too many handles.
   */
  ghost predicate ExchangeDecides(s: State, t: nat)
    requires t < |s.threads| && s.threads[t].pc.UpCas?
  {
    var s' := Step(s, t, Exchange);
    && (s' != s <==> Arcs(s) == s.threads[t].pc.n)
    && (s' != s ==>
          && Arcs(s) > 0 && s.dropped == 0 && Arcs(s') == Arcs(s) + 1
          && t < |s'.threads| && s'.threads[t].pc == UpAlloc(s.threads[t].pc.h)
          && forall a: Action :: Keepers(s') <= MAX / 2 ==> Made(s', Step(s', t, a), t))
  }

  lemma AllocCounts(s: State, a: A.State)
    requires Inv(s, a)
    ensures LastAlloc(s).value == Keepers(s)
  {
    SharesAgree(s.handles, a.handles);
    assert MsgRelated(LastAlloc(s), A.Last(a));
  }

  lemma UpAllocMakes(s: State, t: nat, act: Action)
    requires !s.aborted && s.data != [] && t < |s.threads| && s.threads[t].pc.UpAlloc?
    requires s.alloc != [] && LastAlloc(s).value == Keepers(s) <= MAX / 2
    ensures Made(s, Step(s, t, act), t)
  {
    assert Step(s, t, act) == WeakCloneStep(s, t, Arc, Calm);
  }

  /** The exchange that succeeds makes the thread rise. */
  lemma UpExchangeCounts(s: State, t: nat, h: nat)
    requires s.data != [] && t < |s.threads| && !s.threads[t].pc.UpAlloc?
    ensures var s' := UpExchange(s, t, h, LastData(s).value);
      && |s'.threads| == |s.threads| && s'.threads[t].pc == UpAlloc(h) && Arcs(s') == Arcs(s) + 1
      && s'.handles == s.handles && s'.alloc == s.alloc && s'.data != [] && s'.aborted == s.aborted
  {
    var s' := UpExchange(s, t, h, LastData(s).value);
    assert s'.threads == s.threads[t := s'.threads[t]];
    SumUpdate(s.threads, t, s'.threads[t], Rising);
  }

  lemma UpCasDecides(s: State, a: A.State, t: nat)
    requires Inv(s, a) && !s.aborted && t < |s.threads| && s.threads[t].pc.UpCas?
    ensures ExchangeDecides(s, t)
  {
    assert RoleOk(s, t);
    var s' := Step(s, t, Exchange);
    assert s' == UpExchange(s, t, s.threads[t].pc.h, s.threads[t].pc.n);
    if LastData(s).value == s.threads[t].pc.n {
      AllocCounts(s, a);
      UpExchangeCounts(s, t, s.threads[t].pc.h);
      forall act: Action | Keepers(s') <= MAX / 2
        ensures Made(s', Step(s', t, act), t)
      {
        UpAllocMakes(s', t, act);
      }
    }
  }

  /**
   upgrade answers None only if no `Arc` is left, however stale its Relaxed loads may be. Its exchange succeeds
   if and only if what it read is the number of `Arc`s; then T is alive and a new `Arc` is there with the next
   step.
   */
  lemma UpgradeIsRight(n: nat, sched: seq<(nat, Action)>, t: nat, i: nat)
    requires n <= MAX / 2
    requires var s := Run(Init(n), sched); t < |s.threads| && !s.aborted
    ensures var s := Run(Init(n), sched);
      && ((s.threads[t].pc.UpLoad? || s.threads[t].pc.UpCas?) && s.threads[t].clock.data <= i < |s.data| ==>
            UpgradeDecides(s, t, i))
      && (s.threads[t].pc.UpCas? ==> ExchangeDecides(s, t))
  {
    var image := Reachable(n, sched);
    var s := Run(Init(n), sched);
    if s.threads[t].pc.UpCas? { UpCasDecides(s, A.Run(A.Init(n), image), t); }
    if (s.threads[t].pc.UpLoad? || s.threads[t].pc.UpCas?) && s.threads[t].clock.data <= i < |s.data| {
      UpLoadDecides(s, t, i);
    }
  }
}
