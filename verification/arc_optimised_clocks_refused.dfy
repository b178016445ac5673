/**
 A lone optimised `Arc` may be refused: another handle is gone, but the message that says so has not
 reached the caller. Either the load behind the exchange or the exchange itself may read a stale count.
 */
module OptimisedClocksRefused {
  import opened References
  import opened TwoClocks
  import opened OptimisedClocks
  import opened OptimisedClocksRuns
  import opened OptimisedClocksTheorems

  /** One more step of a run with few handles. */
  lemma Extend(tr: seq<(nat, Action)>, t: nat, a: Action) returns (sched: seq<(nat, Action)>)
    requires AlwaysBounded(Init(2), tr) && |Step(Run(Init(2), tr), t, a).handles| <= 2
    ensures AlwaysBounded(Init(2), sched) && Run(Init(2), sched) == Step(Run(Init(2), tr), t, a)
  {
    FewHandles(Step(Run(Init(2), tr), t, a));
    RunSnoc(Init(2), tr, t, a);
    sched := tr + [(t, a)];
  }

  /** Two threads at rest; the clock of thread 0 and of handle 0 is at most `data` and `alloc`. */
  predicate AtRest(s: State, data: nat, alloc: nat) {
    && |s.threads| == 2 && !s.aborted && s.threads[0].pc == s.threads[1].pc == Calm
    && s.threads[0].shared == s.threads[1].shared == {}
    && |s.handles| == 2 && IsLive(s, 0, Arc)
    && s.threads[0].clock.data == data && s.threads[0].clock.alloc == alloc
    && s.handles[0].base.data <= data && s.handles[0].base.alloc <= alloc
    && s.handles[0].ended.data <= data && s.handles[0].ended.alloc <= alloc
  }

  // ----- The first counter -----

  /** Thread 0 has cloned its handle 0. */
  predicate JustCloned(s: State) {
    AtRest(s, 1, 0) && IsLive(s, 1, Arc) && |s.data| == 2 && s.data[1].value == 2 && s.alloc == [Msg(1, NEVER)]
  }

  lemma CloneOnce(s: State)
    requires s == Step(Init(2), 0, BeginShared(0))
    ensures |s.handles| == 1
    ensures var s1 := Step(s, 0, Clone(0)); |s1.handles| == 2 && JustCloned(Step(s1, 0, EndShared(0)))
  {
    assert Init(2).threads[0] == Thread(Calm, NEVER, NEVER, {});
    assert s.threads[0] == Thread(Calm, Clock({0}, 0, 0), NEVER, {0});
    var s1 := Step(s, 0, Clone(0));
    assert s1.threads[0].shared == {0} && s1.threads[0].pc == Calm && s1.threads[0].clock.data == 1;
  }

  lemma CloneFirst() returns (sched: seq<(nat, Action)>)
    ensures AlwaysBounded(Init(2), sched) && JustCloned(Run(Init(2), sched))
  {
    FewHandles(Init(2));
    CloneOnce(Step(Init(2), 0, BeginShared(0)));
    sched := Extend([], 0, BeginShared(0));
    sched := Extend(sched, 0, Clone(0));
    sched := Extend(sched, 0, EndShared(0));
  }

  /** Thread 1 has dropped the clone, unseen by thread 0. */
  predicate DropUnseen(s: State) {
    && AtRest(s, 1, 0) && s.handles[1].status == Gone
    && |s.data| == 3 && s.data[1].value == 2 && s.alloc == [Msg(1, NEVER)]
  }

  lemma DropClone(s: State)
    requires JustCloned(s)
    ensures var s1 := Step(s, 1, BeginDrop(1)); |s1.handles| == 2 && DropUnseen(Step(s1, 1, Continue(0)))
  {
    var s1 := Step(s, 1, BeginDrop(1));
    assert CanOwn(s, 1, Arc);
    assert s1 == BeginOwnStep(s, 1, 1, Arc, Dropping(1));
    assert Step(s1, 1, Continue(0)) == DropStep(s1, 1, 1);
  }

  /** Thread 0 may answer None by reading message `i` of the first counter, although its handle 0 is the only one. */
  ghost predicate RefusedByLoad(s: State, i: nat) {
    && 0 < |s.threads| && !s.aborted && s.threads[0].pc == GmLoad(0) && OnlyLive(s, 0)
    && s.threads[0].clock.data <= i < |s.data|
    && Step(s, 0, Continue(i)).threads[0].pc == GmStore(0, false)
  }

  lemma UnseenLock(s: State)
    requires DropUnseen(s)
    ensures var s1 := Step(s, 0, BeginGetMut(0));
      && s1 == Put(s, 0, s1.threads[0]) && s1.threads[0].pc == GmCas(0)
      && s1.threads[0].clock.data == 1 && s1.threads[0].clock.alloc == 0
  {
    assert CanOwn(s, 0, Arc);
    BeginsAre(s, 0, BeginGetMut(0));
  }

  lemma UnseenRefused(s: State)
    requires |s.threads| == 2 && !s.aborted && s.threads[0].pc == GmCas(0)
    requires s.threads[0].clock.data == 1 && s.threads[0].clock.alloc == 0
    requires |s.handles| == 2 && IsLive(s, 0, Arc) && s.handles[1].status == Gone
    requires |s.data| == 3 && s.data[1].value == 2 && s.alloc == [Msg(1, NEVER)]
    ensures |Step(s, 0, Exchange).handles| == 2 && RefusedByLoad(Step(s, 0, Exchange), 1)
  {
    LockingIs(s, 0, Exchange);
    LockingIs(Step(s, 0, Exchange), 0, Continue(1));
  }

  /** So an `Arc` that is alone may be refused by the load: the drop of a clone has not become visible yet. */
  lemma LonelyRefused()
    ensures exists sched: seq<(nat, Action)> ::
      AlwaysBounded(Init(2), sched) && RefusedByLoad(Run(Init(2), sched), 1)
  {
    var sched := CloneFirst();
    DropClone(Run(Init(2), sched));
    sched := Extend(sched, 1, BeginDrop(1));
    sched := Extend(sched, 1, Continue(0));
    UnseenLock(Run(Init(2), sched));
    sched := Extend(sched, 0, BeginGetMut(0));
    UnseenRefused(Run(Init(2), sched));
    sched := Extend(sched, 0, Exchange);
  }

  // ----- The second counter -----

  /** Thread 0 has downgraded its handle 0. */
  predicate JustDowngraded(s: State) {
    AtRest(s, 0, 1) && IsLive(s, 1, Weak) && |s.data| == 1 && |s.alloc| == 2 && s.alloc[1].value == 2
  }

  lemma DowngradeLoads(s: State)
    requires s == Step(Init(2), 0, BeginShared(0))
    ensures |s.handles| == 1
    ensures var s1 := Step(s, 0, BeginDowngrade(0)); var s2 := Step(s1, 0, Continue(0));
      && |s1.handles| == |s2.handles| == 1 && |s2.threads| == 2 && !s2.aborted && IsLive(s2, 0, Arc)
      && s2.threads[0].pc == DownCas(0, 1) && s2.threads[0].shared == {0}
      && s2.threads[0].clock.data == s2.threads[0].clock.alloc == 0
      && s2.threads[1] == Thread(Calm, NEVER, NEVER, {})
      && s2.handles == Init(2).handles && s2.data == s2.alloc == [Msg(1, NEVER)]
  {
    assert Init(2).threads[0] == Init(2).threads[1] == Thread(Calm, NEVER, NEVER, {});
    assert s.threads[0] == Thread(Calm, Clock({0}, 0, 0), NEVER, {0});
  }

  lemma DowngradeOnce(s: State)
    requires |s.handles| == 1 && |s.threads| == 2 && !s.aborted && s.threads[0].pc == DownCas(0, 1)
    requires s.threads[0].shared == {0} && s.threads[0].clock.data == s.threads[0].clock.alloc == 0
    requires s.threads[1] == Thread(Calm, NEVER, NEVER, {})
    requires s.handles == Init(2).handles && s.data == s.alloc == [Msg(1, NEVER)]
    ensures var s1 := Step(s, 0, Exchange); |s1.handles| == 2 && JustDowngraded(Step(s1, 0, EndShared(0)))
  {
    var s1 := Step(s, 0, Exchange);
    assert s1 == DownExchange(s, 0, 1);
    assert s1.threads[0].pc == Calm && s1.threads[0].shared == {0} && s1.threads[0].clock.alloc == 1;
  }

  lemma DowngradeFirst() returns (sched: seq<(nat, Action)>)
    ensures AlwaysBounded(Init(2), sched) && JustDowngraded(Run(Init(2), sched))
  {
    FewHandles(Init(2));
    DowngradeLoads(Step(Init(2), 0, BeginShared(0)));
    sched := Extend([], 0, BeginShared(0));
    sched := Extend(sched, 0, BeginDowngrade(0));
    sched := Extend(sched, 0, Continue(0));
    DowngradeOnce(Run(Init(2), sched));
    sched := Extend(sched, 0, Exchange);
    sched := Extend(sched, 0, EndShared(0));
  }

  /** Thread 1 has dropped the `Weak`, unseen by thread 0. */
  predicate WeakDropUnseen(s: State) {
    AtRest(s, 0, 1) && s.handles[1].status == Gone && |s.data| == 1 && |s.alloc| == 3 && s.alloc[1].value == 2
  }

  lemma DropWeakClone(s: State)
    requires JustDowngraded(s)
    ensures var s1 := Step(s, 1, BeginDropWeak(1)); |s1.handles| == 2 && WeakDropUnseen(Step(s1, 1, Continue(0)))
  {
    var s1 := Step(s, 1, BeginDropWeak(1));
    assert CanOwn(s, 1, Weak);
    assert s1 == BeginOwnStep(s, 1, 1, Weak, WeakDropping(1));
    DropsAre(s1, 1, Continue(0));
  }

  /** Thread 0 may answer None by reading message `i` of the second counter, although its handle 0 is the only one. */
  ghost predicate RefusedByExchange(s: State, i: nat) {
    && 0 < |s.threads| && !s.aborted && s.threads[0].pc == GmCas(0) && OnlyLive(s, 0)
    && s.threads[0].clock.alloc <= i < |s.alloc|
    && Step(s, 0, Continue(i)).threads[0].pc == Calm
  }

  lemma WeakUnseenRefused(s: State)
    requires WeakDropUnseen(s)
    ensures var s1 := Step(s, 0, BeginGetMut(0)); |s1.handles| == 2 && RefusedByExchange(s1, 1)
  {
    var s1 := Step(s, 0, BeginGetMut(0));
    assert CanOwn(s, 0, Arc);
    BeginsAre(s, 0, BeginGetMut(0));
    LockingIs(s1, 0, Continue(1));
  }

  /** It may also be refused by the exchange: the drop of a `Weak` has not become visible yet. */
  lemma LonelyRefusedAtOnce()
    ensures exists sched: seq<(nat, Action)> ::
      AlwaysBounded(Init(2), sched) && RefusedByExchange(Run(Init(2), sched), 1)
  {
    var sched := DowngradeFirst();
    DropWeakClone(Run(Init(2), sched));
    sched := Extend(sched, 1, BeginDropWeak(1));
    sched := Extend(sched, 1, Continue(0));
    WeakUnseenRefused(Run(Init(2), sched));
    sched := Extend(sched, 0, BeginGetMut(0));
  }
}
