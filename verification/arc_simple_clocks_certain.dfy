/** When get_mut of the simple `Arc` is certain of Some under the weak memory model, and how it may refuse. */
module SimpleClocksCertain {
  import opened Basics
  import opened References
  import opened Usize
  import opened TwoClocks
  import opened SimpleClocks
  import opened SimpleClocksBorrows
  import opened SimpleClocksRelation
  import opened SimpleClocksInv
  import opened SimpleClocksRuns
  import opened SimpleClocksTheorems
  import A = ArcClocks

  /** Every update of the second counter happens before a get_mut through `h` that starts now. */
  predicate UpToDate(s: State, t: nat, h: nat)
    requires t < |s.threads| && h < |s.handles|
  {
    Join(Join(s.threads[t].clock, s.handles[h].base), s.handles[h].ended).alloc == |s.alloc| - 1
  }

  /** The call that others let get to its load ends in Some, if the load can read message `i`. */
  predicate SaysSome(s: State, t: nat, h: nat, i: nat, first: seq<(nat, Action)>, second: seq<(nat, Action)>) {
    var s1 := Run(s, first);
    t < |s1.threads| && !s1.aborted && s1.threads[t].clock.alloc <= i < |s1.alloc| ==>
      var s3 := Step(Run(Step(s1, t, Continue(i)), second), t, Continue(0));
      s3.aborted || (t < |s3.threads| && s3.threads[t].pc == Mutating(h))
  }

  /**
   Whatever others do meanwhile and whichever message its load reads, the three steps of get_mut end with
   the `&mut T`, unless the process aborts.
   */
  ghost predicate Certain(s: State, t: nat, h: nat) {
    forall i: nat, first: seq<(nat, Action)>, second: seq<(nat, Action)>
      | OthersOnly(t, first) && OthersOnly(t, second) ::
      SaysSome(Step(s, t, BeginGetMut(h)), t, h, i, first, second)
  }

  // ----- Others have nothing to work through -----

  /** Thread `t` asks for the `&mut T` through the only handle. */
  ghost predicate Undisputed(s: State, t: nat, h: nat) {
    && Borrowed(s) && t < |s.threads| && OnlyLive(s, h)
    && (s.threads[t].pc == GmLoad(h) || s.threads[t].pc == GmFence(h))
  }

  lemma CalmIdles(s: State, t: nat, h: nat, u: nat, a: Action)
    requires Undisputed(s, t, h) && u < |s.threads| && u != t
    requires s.threads[u].pc.Calm? && forall g: nat :: !Uses(s.threads[u], g)
    ensures CalmStep(s, u, a) == s
  {
    assert forall g: nat :: g !in s.threads[u].shared by {
      forall g: nat ensures g !in s.threads[u].shared { assert !Uses(s.threads[u], g); }
    }
    assert forall g: nat :: !CanShare(s, g);
    assert Uses(s.threads[t], h);
    assert forall g: nat, kind: Kind :: !CanOwn(s, g, kind);
  }

  /** Nobody is about to free the block. */
  lemma NotFreeing(s: State, a: A.State, t: nat, h: nat, u: nat)
    requires Inv(s, a) && Undisputed(s, t, h) && u < |s.threads|
    ensures !s.threads[u].pc.FreeFence? && !s.threads[u].pc.Freeing?
  {
    assert ThreadRelated(s.threads[t], a.threads[t]) && ThreadRelated(s.threads[u], a.threads[u]);
    assert A.Uses(a.threads[t], h) && A.ThreadOk(a, u);
    A.LiveIsCounted(a, t, h);
  }

  /** The handle that an operation in flight works through. */
  function Working(pc: Pc): nat {
    if Through(pc) || Leaving(pc) || Asking(pc) then pc.h else 0
  }

  lemma OthersIdle(s: State, a: A.State, t: nat, h: nat, u: nat, act: Action)
    requires Inv(s, a) && Undisputed(s, t, h) && u != t
    ensures Step(s, u, act) == s || Step(s, u, act) == s.(aborted := true)
  {
    if u < |s.threads| {
      NobodyElse(s, t, h, u);
      assert BorrowsOk(s, u);
      assert !Uses(s.threads[u], Working(s.threads[u].pc));
      NotFreeing(s, a, t, h, u);
      if s.threads[u].pc.Calm? { CalmIdles(s, t, h, u, act); }
    }
  }

  lemma {:induction false} AbortedStays(s: State, more: seq<(nat, Action)>)
    requires s.aborted
    ensures Run(s, more) == s
    decreases |more|
  {
    if more == [] {
    } else {
      AbortedStays(s, more[1..]);
    }
  }

  lemma {:induction false} OthersIdleThroughout(s: State, a: A.State, t: nat, h: nat, more: seq<(nat, Action)>)
    requires Inv(s, a) && Undisputed(s, t, h) && OthersOnly(t, more)
    ensures Run(s, more) == s || Run(s, more).aborted
    decreases |more|
  {
    if more == [] {
    } else {
      OthersIdle(s, a, t, h, more[0].0, more[0].1);
      if Step(s, more[0].0, more[0].1) == s {
        OthersIdleThroughout(s, a, t, h, more[1..]);
      } else {
        AbortedStays(s.(aborted := true), more[1..]);
      }
    }
  }

  // ----- Certain of Some -----

  /** The call begins: its clock joins those of the handle. */
  lemma Begins(s: State, a: A.State, t: nat, h: nat) returns (more: Image)
    requires Inv(s, a) && !s.aborted && t < |s.threads| && s.threads[t].pc.Calm? && CanOwn(s, h, Arc)
    ensures var s1 := Step(s, t, BeginGetMut(h));
      && Inv(s1, A.Run(a, more))
      && s1 == Put(s, t, s.threads[t].(pc := GmLoad(h),
                                      clock := Join(Join(s.threads[t].clock, s.handles[h].base), s.handles[h].ended)))
  {
    more := StepSim(s, a, t, BeginGetMut(h));
    assert Step(s, t, BeginGetMut(h)) == BeginOwnStep(s, t, h, Arc, GmLoad(h));
  }

  /** The load has seen 1: the call ends in Some. */
  lemma FenceSaysSome(s: State, a: A.State, t: nat, h: nat, more: seq<(nat, Action)>)
    requires Inv(s, a) && Undisputed(s, t, h) && s.threads[t].pc == GmFence(h) && !s.aborted && OthersOnly(t, more)
    ensures var s' := Step(Run(s, more), t, Continue(0));
      s'.aborted || (t < |s'.threads| && s'.threads[t].pc == Mutating(h))
  {
    OthersIdleThroughout(s, a, t, h, more);
    if Run(s, more) == s { FenceGrants(s, t, h); }
  }

  /** The load that sees 1 leaves the handle as it was. */
  lemma LoadGoesToFence(s: State, a: A.State, t: nat, h: nat, i: nat) returns (more: Image)
    requires Inv(s, a) && Undisputed(s, t, h) && !s.aborted && s.threads[t].pc == GmLoad(h)
    requires s.threads[t].clock.alloc == i == |s.alloc| - 1
    ensures var s' := Step(s, t, Continue(i));
      Inv(s', A.Run(a, more)) && Undisputed(s', t, h) && !s'.aborted && s'.threads[t].pc == GmFence(h)
  {
    LoadDecides(s, a, t, i);
    more := StepSim(s, a, t, Continue(i));
    assert BorrowsOk(s, t);
    LoadGoesOn(s, t, i);
  }

  lemma CertainIf(s: State, a: A.State, t: nat, h: nat, i: nat, first: seq<(nat, Action)>,
                  second: seq<(nat, Action)>)
    requires Inv(s, a) && !s.aborted && t < |s.threads| && s.threads[t].pc == GmLoad(h)
    requires OnlyLive(s, h) && s.threads[t].clock.alloc == |s.alloc| - 1
    requires OthersOnly(t, first) && OthersOnly(t, second)
    ensures SaysSome(s, t, h, i, first, second)
  {
    OthersIdleThroughout(s, a, t, h, first);
    if Run(s, first) == s && s.threads[t].clock.alloc <= i < |s.alloc| {
      var more := LoadGoesToFence(s, a, t, h, i);
      FenceSaysSome(Step(s, t, Continue(i)), A.Run(a, more), t, h, second);
    }
  }

  lemma OnlyIfCertain(s: State, a: A.State, t: nat, h: nat)
    requires Inv(s, a) && !s.aborted && t < |s.threads| && s.threads[t].pc == GmLoad(h)
    requires SaysSome(s, t, h, s.threads[t].clock.alloc, [], [])
    ensures OnlyLive(s, h) && s.threads[t].clock.alloc == |s.alloc| - 1
  {
    assert ThreadFits(s, s.threads[t]) && BorrowsOk(s, t);
    LoadDecides(s, a, t, s.threads[t].clock.alloc);
    LoadGoesOn(s, t, s.threads[t].clock.alloc);
  }

  /**
   A call of get_mut is certain of Some, whatever others do during the call and however stale its load may
   be, if and only if at its start the caller's `Arc` is the only handle and every update of the second
   counter happens before the call.
   */
  lemma CertainOfSome(n: nat, sched: seq<(nat, Action)>, t: nat, h: nat)
    requires n <= MAX / 2
    requires var s := Run(Init(n), sched);
      t < |s.threads| && !s.aborted && s.threads[t].pc.Calm? && CanOwn(s, h, Arc)
    ensures var s := Run(Init(n), sched);
      Certain(s, t, h) <==> OnlyLive(s, h) && UpToDate(s, t, h)
  {
    var image := Reachable(n, sched);
    var s, a := Run(Init(n), sched), A.Run(A.Init(n), image);
    var s1 := Step(s, t, BeginGetMut(h));
    var more := Begins(s, a, t, h);
    if OnlyLive(s, h) && UpToDate(s, t, h) {
      forall i: nat, first: seq<(nat, Action)>, second: seq<(nat, Action)>
        | OthersOnly(t, first) && OthersOnly(t, second)
        ensures SaysSome(s1, t, h, i, first, second)
      {
        CertainIf(s1, A.Run(a, more), t, h, i, first, second);
      }
    }
    if Certain(s, t, h) {
      var none: seq<(nat, Action)> := [];
      assert OthersOnly(t, none) && SaysSome(s1, t, h, s1.threads[t].clock.alloc, none, none);
      OnlyIfCertain(s1, A.Run(a, more), t, h);
    }
  }

  // ----- Some is granted, and a lone `Arc` may be refused -----

  lemma {:induction false} RunSnoc(s: State, tr: seq<(nat, Action)>, t: nat, a: Action)
    ensures Run(s, tr + [(t, a)]) == Step(Run(s, tr), t, a)
    decreases |tr|
  {
    if tr == [] {
      assert (tr + [(t, a)])[1..] == [];
    } else {
      assert (tr + [(t, a)])[1..] == tr[1..] + [(t, a)];
      RunSnoc(Step(s, tr[0].0, tr[0].1), tr[1..], t, a);
    }
  }

  ghost predicate Grants(n: nat, sched: seq<(nat, Action)>) {
    0 < |Run(Init(n), sched).threads| && Run(Init(n), sched).threads[0].pc == Mutating(0)
  }

  /** The `&mut T` is reached by some run of any number of threads. */
  lemma SomeIsGranted(n: nat)
    requires 0 < n <= MAX / 2
    ensures exists sched: seq<(nat, Action)> :: Grants(n, sched)
  {
    var s := Init(n);
    var sched: seq<(nat, Action)> := [];
    RunSnoc(s, sched, 0, BeginGetMut(0));
    sched := sched + [(0, BeginGetMut(0))];
    var s1 := Run(s, sched);
    assert CanOwn(s, 0, Arc) && s1 == BeginOwnStep(s, 0, 0, Arc, GmLoad(0));
    RunSnoc(s, sched, 0, Continue(0));
    sched := sched + [(0, Continue(0))];
    LoadGoesOn(s1, 0, 0);
    RunSnoc(s, sched, 0, Continue(0));
    sched := sched + [(0, Continue(0))];
    FenceGrants(Step(s1, 0, Continue(0)), 0, 0);
    assert Grants(n, sched);
  }

  lemma Extend(tr: seq<(nat, Action)>, t: nat, a: Action) returns (sched: seq<(nat, Action)>)
    ensures Run(Init(2), sched) == Step(Run(Init(2), tr), t, a)
  {
    RunSnoc(Init(2), tr, t, a);
    sched := tr + [(t, a)];
  }

  /** Two threads at rest with two handles; thread 0 and its handle 0 have seen one update of the second counter. */
  predicate AtRest(s: State) {
    && |s.threads| == 2 && !s.aborted && s.threads[0].pc == s.threads[1].pc == Calm
    && s.threads[0].shared == s.threads[1].shared == {}
    && |s.handles| == 2 && IsLive(s, 0, Arc) && s.threads[0].clock.alloc == 1
    && s.handles[0].base.alloc <= 1 && s.handles[0].ended.alloc <= 1
    && |s.alloc| > 1 && s.alloc[1].value == 2
  }

  /** Thread 0 has cloned its handle 0. */
  predicate JustCloned(s: State) {
    AtRest(s) && IsLive(s, 1, Arc) && |s.alloc| == 2 && |s.data| == 2 && s.data[1].value == 2
  }

  lemma CloneCounts(s: State)
    requires s == Step(Init(2), 0, BeginShared(0))
    ensures var s1 := Step(s, 0, Clone(0));
      && |s1.threads| == 2 && !s1.aborted && s1.threads[0].pc == Cloning(0, 1) && s1.threads[0].shared == {0}
      && s1.threads[0].clock.alloc == 1 && s1.threads[1] == Thread(Calm, NEVER, NEVER, {})
      && |s1.handles| == 2 && s1.handles[0] == Init(2).handles[0] && IsLive(s1, 1, Half)
      && s1.data == [Msg(1, NEVER)] && |s1.alloc| == 2 && s1.alloc[1].value == 2
  {
    assert Init(2).threads[0] == Init(2).threads[1] == Thread(Calm, NEVER, NEVER, {});
    assert s.threads[0] == Thread(Calm, Clock({0}, 0, 0), NEVER, {0});
  }

  lemma CloneEnds(s: State)
    requires |s.threads| == 2 && !s.aborted && s.threads[0].pc == Cloning(0, 1) && s.threads[0].shared == {0}
    requires s.threads[0].clock.alloc == 1 && s.threads[1] == Thread(Calm, NEVER, NEVER, {})
    requires |s.handles| == 2 && s.handles[0] == Init(2).handles[0] && IsLive(s, 1, Half)
    requires s.data == [Msg(1, NEVER)] && |s.alloc| == 2 && s.alloc[1].value == 2
    ensures JustCloned(Step(Step(s, 0, Continue(0)), 0, EndShared(0)))
  {
    var s1 := Step(s, 0, Continue(0));
    assert s1 == CloneDataStep(s, 0, 1);
    assert s1.threads[0].pc == Calm && s1.threads[0].shared == {0} && s1.threads[0].clock.alloc == 1;
  }

  lemma CloneFirst() returns (sched: seq<(nat, Action)>)
    ensures JustCloned(Run(Init(2), sched))
  {
    CloneCounts(Step(Init(2), 0, BeginShared(0)));
    sched := Extend([], 0, BeginShared(0));
    sched := Extend(sched, 0, Clone(0));
    CloneEnds(Run(Init(2), sched));
    sched := Extend(sched, 0, Continue(0));
    sched := Extend(sched, 0, EndShared(0));
  }

  /** Thread 1 has dropped the clone, unseen by thread 0. */
  predicate Unseen(s: State) {
    AtRest(s) && s.handles[1].status == Gone && s.data != [] && |s.alloc| == 3
  }

  /** Thread 1 has lowered the first counter and is about to lower the second. */
  predicate HalfDropped(s: State) {
    && |s.threads| == 2 && s.threads[1].pc == DropAlloc(1) && |s.handles| == 2 && s.data != [] && |s.alloc| == 2
    && AtRest(Goto(s, 1, Calm))
  }

  lemma DropBegins(s: State)
    requires JustCloned(s)
    ensures HalfDropped(Step(Step(s, 1, BeginDrop(1)), 1, Continue(0)))
  {
    var s1 := Step(s, 1, BeginDrop(1));
    assert CanOwn(s, 1, Arc) && s1 == BeginOwnStep(s, 1, 1, Arc, Dropping(1));
    assert Step(s1, 1, Continue(0)) == DropStep(s1, 1, 1);
  }

  lemma DropUnseen(s: State)
    requires HalfDropped(s)
    ensures Unseen(Step(s, 1, Continue(0)))
  {
    assert Step(s, 1, Continue(0)) == DropAllocStep(s, 1, 1);
  }

  /** Thread 0 may answer None by reading message `i`, although its handle 0 is the only one. */
  ghost predicate Refused(s: State, i: nat) {
    && 0 < |s.threads| && !s.aborted && s.threads[0].pc == GmLoad(0) && OnlyLive(s, 0)
    && s.threads[0].clock.alloc <= i < |s.alloc|
    && Step(s, 0, Continue(i)).threads[0].pc == Calm
  }

  lemma UnseenRefused(s: State)
    requires Unseen(s)
    ensures Refused(Step(s, 0, BeginGetMut(0)), 1)
  {
    var s1 := Step(s, 0, BeginGetMut(0));
    assert CanOwn(s, 0, Arc) && s1 == BeginOwnStep(s, 0, 0, Arc, GmLoad(0));
    LoadGoesOn(s1, 0, 1);
  }

  /** So an `Arc` that is alone may be refused: the drop of a clone has not become visible yet. */
  lemma LonelyRefused()
    ensures exists sched: seq<(nat, Action)> :: Refused(Run(Init(2), sched), 1)
  {
    var sched := CloneFirst();
    DropBegins(Run(Init(2), sched));
    sched := Extend(sched, 1, BeginDrop(1));
    sched := Extend(sched, 1, Continue(0));
    DropUnseen(Run(Init(2), sched));
    sched := Extend(sched, 1, Continue(0));
    UnseenRefused(Run(Init(2), sched));
    sched := Extend(sched, 0, BeginGetMut(0));
  }
}
