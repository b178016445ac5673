/** When get_mut of the optimised `Arc` is certain of Some under the weak memory model. */
module OptimisedClocksCertain {
  import opened Basics
  import opened Usize
  import opened TwoClocks
  import opened OptimisedClocks
  import opened OptimisedClocksInv
  import opened OptimisedClocksRuns
  import opened OptimisedClocksTheorems

  /** Every update of both counters happens before the exchange of a get_mut through `h` that starts now. */
  predicate UpToDate(s: State, t: nat, h: nat)
    requires t < |s.threads| && h < |s.handles| && s.alloc != []
  {
    var c := Join(Join(s.threads[t].clock, s.handles[h].base), s.handles[h].ended);
    c.alloc == |s.alloc| - 1 && Max(c.data, LastAlloc(s).clock.data) == |s.data| - 1
  }

  /** The exchange cannot fail by reading message `i`. */
  predicate CannotFail(s: State, t: nat, i: nat) {
    t < |s.threads| && !s.aborted && s.threads[t].clock.alloc <= i < |s.alloc| ==> s.alloc[i].value == 1
  }

  /** Others do `more`, and then thread `t` takes its next step. */
  function Then(s: State, more: seq<(nat, Action)>, t: nat, a: Action): State {
    Step(Run(s, more), t, a)
  }

  /** The call that others let get behind its exchange ends in Some, if its load can read message `i`. */
  predicate SaysSome(s: State, t: nat, h: nat, i: nat, first: seq<(nat, Action)>, second: seq<(nat, Action)>,
                     third: seq<(nat, Action)>)
  {
    var s1 := Run(s, first);
    t < |s1.threads| && !s1.aborted && s1.threads[t].clock.data <= i < |s1.data| ==>
      var s4 := Then(Then(Step(s1, t, Continue(i)), second, t, Continue(0)), third, t, Continue(0));
      s4.aborted || (t < |s4.threads| && s4.threads[t].pc == Mutating(h))
  }

  /**
   Whatever others do meanwhile and whichever messages its exchange and its load read, the five steps of
   get_mut end with the `&mut T`, unless the process aborts.
   */
  ghost predicate Certain(s: State, t: nat, h: nat) {
    && (forall more: seq<(nat, Action)>, i: nat | OthersOnly(t, more) ::
          CannotFail(Run(Step(s, t, BeginGetMut(h)), more), t, i))
    && (forall i: nat, zeroth: seq<(nat, Action)>, first: seq<(nat, Action)>, second: seq<(nat, Action)>,
               third: seq<(nat, Action)>
          | OthersOnly(t, zeroth) && OthersOnly(t, first) && OthersOnly(t, second) && OthersOnly(t, third) ::
          SaysSome(Then(Step(s, t, BeginGetMut(h)), zeroth, t, Exchange), t, h, i, first, second, third))
  }

  /** The call of get_mut through `h`, up to the end of the borrow that it returns. */
  predicate Asks(pc: Pc, h: nat) {
    (pc.GmCas? || pc.GmLoad? || pc.GmStore? || pc.GmFence? || pc.Mutating?) && pc.h == h
  }

  /** Thread `t` has the only handle to itself. */
  ghost predicate Undisputed(s: State, t: nat, h: nat) {
    Inv(s) && Bounded(s) && t < |s.threads| && OnlyLive(s, h) && Asks(s.threads[t].pc, h)
  }

  lemma CalmIdles(s: State, t: nat, h: nat, u: nat, a: Action)
    requires OnlyLive(s, h) && t < |s.threads| && Owns(s.threads[t].pc, h)
    requires u < |s.threads| && u != t && (s.threads[u].pc.Calm? || s.threads[u].pc.Aborting?)
    requires forall g: nat :: !Uses(s.threads[u], g)
    ensures Step(s, u, a) == s || Step(s, u, a) == s.(aborted := true)
  {
    assert forall g: nat :: g !in s.threads[u].shared by {
      forall g: nat ensures g !in s.threads[u].shared { assert !Uses(s.threads[u], g); }
    }
    assert forall g: nat :: !CanShare(s, g);
    assert Uses(s.threads[t], h);
    assert forall g: nat, kind: Kind :: !CanOwn(s, g, kind);
  }

  /** Nobody else has a handle to work through. */
  lemma NobodyElse(s: State, t: nat, h: nat, u: nat)
    requires Undisputed(s, t, h) && u < |s.threads| && u != t
    ensures forall g: nat :: !Uses(s.threads[u], g)
  {
    assert ThreadOk(s, t);
    forall g: nat
      ensures !Uses(s.threads[u], g)
    {
      if Uses(s.threads[u], g) {
        LiveIsCounted(s, u, g);
        assert false;
      }
    }
  }

  /** The handle that an operation in flight works through. */
  function Working(pc: Pc): nat {
    if Owning(pc) || Through(pc) then pc.h else 0
  }

  lemma OthersIdle(s: State, t: nat, h: nat, u: nat, a: Action)
    requires Undisputed(s, t, h) && u != t
    ensures Step(s, u, a) == s || Step(s, u, a) == s.(aborted := true)
  {
    assert ThreadOk(s, t) && Uses(s.threads[t], h);
    LiveIsCounted(s, t, h);
    if u < |s.threads| {
      assert ThreadOk(s, u);
      NobodyElse(s, t, h, u);
      assert !Uses(s.threads[u], Working(s.threads[u].pc));
      CalmIdles(s, t, h, u, a);
    }
  }

  lemma {:induction false} AbortedStays(s: State, more: seq<(nat, Action)>)
    requires s.aborted
    ensures Run(s, more) == s
    decreases |more|
  {
    if more == [] {
    } else {
      AbortedStays(s, more[1..]);
    }
  }

  lemma {:induction false} OthersIdleThroughout(s: State, t: nat, h: nat, more: seq<(nat, Action)>)
    requires Undisputed(s, t, h) && OthersOnly(t, more)
    ensures Run(s, more) == s || Run(s, more) == s.(aborted := true)
    decreases |more|
  {
    if more == [] {
    } else {
      OthersIdle(s, t, h, more[0].0, more[0].1);
      if Step(s, more[0].0, more[0].1) == s {
        OthersIdleThroughout(s, t, h, more[1..]);
      } else {
        AbortedStays(s.(aborted := true), more[1..]);
      }
    }
  }

  /** No update of the second counter leaves its value as it was. */
  predicate Adjacent(s: State) {
    forall i | 0 < i < |s.alloc| :: s.alloc[i - 1].value != s.alloc[i].value
  }

  predicate AllocMoves(s: State, s': State)
    requires s.alloc != []
  {
    || s'.alloc == s.alloc
    || (&& |s'.alloc| == |s.alloc| + 1 && s'.alloc[..|s.alloc|] == s.alloc
        && s'.alloc[|s.alloc|].value != LastAlloc(s).value)
  }

  lemma CalmAlloc(s: State, t: nat, a: Action)
    requires t < |s.threads| && s.data != [] && s.alloc != []
    ensures AllocMoves(s, CalmStep(s, t, a))
  {
    match a
    case CloneWeak(h) => assert CalmStep(s, t, a) == CloneWeakStep(s, t, h);
    case Clone(h) => assert CalmStep(s, t, a) == CloneStep(s, t, h);
    case Read(h) => assert CalmStep(s, t, a) == ReadStep(s, t, h);
    case _ =>
  }

  lemma ThroughAlloc(s: State, t: nat, a: Action)
    requires t < |s.threads| && s.data != [] && s.alloc != [] && Through(s.threads[t].pc)
    ensures AllocMoves(s, Step(s, t, a))
  {
    match s.threads[t].pc
    case UpLoad(h) => assert a.Continue? && !s.aborted ==> Step(s, t, a) == UpLoadStep(s, t, h, a.i);
    case UpCas(h, n) =>
      assert a.Continue? && !s.aborted ==> Step(s, t, a) == UpLoadStep(s, t, h, a.i);
      assert a.Exchange? && !s.aborted ==> Step(s, t, a) == UpExchange(s, t, n);
    case DownLoad(h) => assert a.Continue? && !s.aborted ==> Step(s, t, a) == DownLoadStep(s, t, h, a.i);
    case DownCas(h, n) =>
      assert a.Continue? && !s.aborted ==> Step(s, t, a) == DownLoadStep(s, t, h, a.i);
      assert a.Exchange? && !s.aborted ==> Step(s, t, a) == DownExchange(s, t, n);
  }

  lemma GetMutAlloc(s: State, t: nat, a: Action)
    requires !s.aborted && t < |s.threads| && s.data != [] && s.alloc != []
    requires var pc := s.threads[t].pc; pc.GmCas? || pc.GmLoad? || pc.GmStore? || pc.GmFence? || pc.Mutating?
    requires s.threads[t].pc.GmStore? ==> LastAlloc(s).value == MAX
    ensures AllocMoves(s, Step(s, t, a))
  {
    LockingIs(s, t, a);
    UnlockingIs(s, t, a);
  }

  lemma DropsAlloc(s: State, t: nat, a: Action)
    requires !s.aborted && t < |s.threads| && s.data != [] && s.alloc != []
    requires var pc := s.threads[t].pc; pc.Dropping? || pc.WeakDropping? || Lasting(pc) || Ending(pc)
    ensures AllocMoves(s, Step(s, t, a))
  {
    DropsAre(s, t, a);
  }

  lemma StepAlloc(s: State, t: nat, a: Action)
    requires s.data != [] && s.alloc != []
    requires t < |s.threads| && s.threads[t].pc.GmStore? ==> LastAlloc(s).value == MAX
    ensures AllocMoves(s, Step(s, t, a))
  {
    if !s.aborted && t < |s.threads| {
      match s.threads[t].pc
      case Calm =>
        CalmAlloc(s, t, a);
        assert Step(s, t, a) == CalmStep(s, t, a);
      case UpLoad(_) | UpCas(_, _) | DownLoad(_) | DownCas(_, _) => ThroughAlloc(s, t, a);
      case GmCas(_) | GmLoad(_) | GmStore(_, _) | GmFence(_) | Mutating(_) => GetMutAlloc(s, t, a);
      case Aborting =>
      case _ => DropsAlloc(s, t, a);
    }
  }

  lemma MovesAdjacent(s: State, s': State)
    requires s.alloc != [] && Adjacent(s) && AllocMoves(s, s')
    ensures Adjacent(s')
  {
    forall i | 0 < i < |s'.alloc|
      ensures s'.alloc[i - 1].value != s'.alloc[i].value
    {
      assert i < |s.alloc| ==> s'.alloc[i] == s.alloc[i];
      assert s'.alloc[i - 1] == s.alloc[i - 1];
    }
  }

  lemma {:induction false} RunAdjacent(s: State, sched: seq<(nat, Action)>)
    requires Inv(s) && Adjacent(s) && AlwaysBounded(s, sched)
    ensures Adjacent(Run(s, sched))
    decreases |sched|
  {
    if sched == [] {
    } else {
      var s' := Step(s, sched[0].0, sched[0].1);
      assert sched[0].0 < |s.threads| ==> ThreadOk(s, sched[0].0);
      StepAlloc(s, sched[0].0, sched[0].1);
      MovesAdjacent(s, s');
      StepInv(s, sched[0].0, sched[0].1);
      RunAdjacent(s', sched[1..]);
    }
  }

  /** The call begins: its clock joins those of the handle. */
  lemma Begins(s: State, t: nat, h: nat)
    requires Inv(s) && Bounded(s) && !s.aborted && t < |s.threads| && s.threads[t].pc.Calm? && CanOwn(s, h, Arc)
    ensures var s1 := Step(s, t, BeginGetMut(h));
      && Inv(s1) && Bounded(s1)
      && s1 == Put(s, t, s.threads[t].(pc := GmCas(h),
                                      clock := Join(Join(s.threads[t].clock, s.handles[h].base), s.handles[h].ended)))
  {
    StepInv(s, t, BeginGetMut(h));
  }

  /** Both counters of a lone `Arc` are 1. */
  lemma LoneIsOne(s: State, t: nat, h: nat)
    requires Undisputed(s, t, h)
    ensures LastData(s).value == 1
    ensures s.threads[t].pc == GmCas(h) ==> LastAlloc(s).value == 1 && s.locker.Nobody?
  {
    assert ThreadOk(s, t) && Uses(s.threads[t], h);
    LiveIsCounted(s, t, h);
    OnlyCounted(s, h);
    if s.threads[t].pc == GmCas(h) && s.locker.By? {
      assert ThreadOk(s, s.locker.t) && Uses(s.threads[s.locker.t], s.threads[s.locker.t].pc.h);
      NobodyElse(s, t, h, s.locker.t);
    }
  }

  /** A successful exchange acquires what the newest message knows. */
  lemma LockAcquires(s: State, t: nat, h: nat)
    requires Inv(s) && Bounded(s) && !s.aborted && t < |s.threads| && s.threads[t].pc == GmCas(h)
    requires LastAlloc(s).value == 1
    ensures var s1 := Step(s, t, Exchange);
      && Inv(s1) && Bounded(s1) && !s1.aborted && |s1.threads| == |s.threads| && s1.threads[t].pc == GmLoad(h)
      && s1.data == s.data && s1.handles == s.handles
      && s1.threads[t].clock.data == Max(s.threads[t].clock.data, LastAlloc(s).clock.data)
  {
    StepInv(s, t, Exchange);
    LockingIs(s, t, Exchange);
  }

  /** The store and the fence of a lone `Arc`. */
  lemma NextStep(s: State, t: nat, h: nat, a: Action)
    requires Undisputed(s, t, h) && !s.aborted
    requires s.threads[t].pc == GmStore(h, true) || s.threads[t].pc == GmFence(h)
    ensures var s' := Step(s, t, a);
      && Undisputed(s', t, h) && !s'.aborted
      && s'.threads[t].pc == if s.threads[t].pc.GmStore? then GmFence(h) else Mutating(h)
  {
    StepInv(s, t, a);
    UnlockingIs(s, t, a);
  }

  /** The load of a lone `Arc` that has seen the newest message. */
  lemma LoadStep(s: State, t: nat, h: nat, i: nat)
    requires Undisputed(s, t, h) && !s.aborted && s.threads[t].pc == GmLoad(h)
    requires s.threads[t].clock.data == |s.data| - 1 == i
    ensures var s' := Step(s, t, Continue(i));
      Undisputed(s', t, h) && !s'.aborted && s'.threads[t].pc == GmStore(h, true)
  {
    StepInv(s, t, Continue(i));
    StepDecides(s, t, Continue(i));
    LockingIs(s, t, Continue(i));
  }

  /** The lone caller has got to `pc`, or the process has aborted. */
  ghost predicate OnCourse(s: State, t: nat, h: nat, pc: Pc) {
    s.aborted || (Undisputed(s, t, h) && s.threads[t].pc == pc)
  }

  /** The store and the fence after whatever others do. */
  lemma Onward(s: State, more: seq<(nat, Action)>, t: nat, h: nat, from: Pc)
    requires from == GmStore(h, true) || from == GmFence(h)
    requires OnCourse(s, t, h, from) && OthersOnly(t, more)
    ensures OnCourse(Then(s, more, t, Continue(0)), t, h, if from.GmStore? then GmFence(h) else Mutating(h))
  {
    if s.aborted {
      AbortedStays(s, more);
    } else {
      OthersIdleThroughout(s, t, h, more);
      if Run(s, more) == s { NextStep(s, t, h, Continue(0)); }
    }
  }

  lemma Finishes(s: State, t: nat, h: nat, second: seq<(nat, Action)>, third: seq<(nat, Action)>)
    requires OnCourse(s, t, h, GmStore(h, true)) && OthersOnly(t, second) && OthersOnly(t, third)
    ensures OnCourse(Then(Then(s, second, t, Continue(0)), third, t, Continue(0)), t, h, Mutating(h))
  {
    Onward(s, second, t, h, GmStore(h, true));
    Onward(Then(s, second, t, Continue(0)), third, t, h, GmFence(h));
  }

  /** A lone `Arc` behind the lock that has seen the newest message gets Some, whatever others do. */
  lemma SaysSomeLocked(s: State, t: nat, h: nat, i: nat, first: seq<(nat, Action)>, second: seq<(nat, Action)>,
                       third: seq<(nat, Action)>)
    requires Undisputed(s, t, h) && s.threads[t].pc == GmLoad(h) && s.threads[t].clock.data == |s.data| - 1
    requires OthersOnly(t, first) && OthersOnly(t, second) && OthersOnly(t, third)
    ensures SaysSome(s, t, h, i, first, second, third)
  {
    OthersIdleThroughout(s, t, h, first);
    if !Run(s, first).aborted && i == |s.data| - 1 {
      LoadStep(s, t, h, i);
      Finishes(Step(s, t, Continue(i)), t, h, second, third);
    }
  }

  lemma SaysSomeAborted(s: State, t: nat, h: nat, i: nat, first: seq<(nat, Action)>, second: seq<(nat, Action)>,
                        third: seq<(nat, Action)>)
    requires s.aborted
    ensures SaysSome(Step(s, t, Exchange), t, h, i, first, second, third)
  {
    assert Step(s, t, Exchange) == s;
    AbortedStays(s, first);
  }

  lemma SaysSomeAnyway(s: State, t: nat, h: nat, i: nat, zeroth: seq<(nat, Action)>, first: seq<(nat, Action)>,
                       second: seq<(nat, Action)>, third: seq<(nat, Action)>)
    requires Undisputed(s, t, h) && !s.aborted && s.threads[t].pc == GmCas(h) && LastAlloc(s).value == 1
    requires Max(s.threads[t].clock.data, LastAlloc(s).clock.data) == |s.data| - 1
    requires OthersOnly(t, zeroth) && OthersOnly(t, first) && OthersOnly(t, second) && OthersOnly(t, third)
    ensures SaysSome(Then(s, zeroth, t, Exchange), t, h, i, first, second, third)
  {
    OthersIdleThroughout(s, t, h, zeroth);
    if Run(s, zeroth).aborted {
      SaysSomeAborted(Run(s, zeroth), t, h, i, first, second, third);
    } else {
      LockAcquires(s, t, h);
      SaysSomeLocked(Step(s, t, Exchange), t, h, i, first, second, third);
    }
  }

  lemma CertainIf(s: State, t: nat, h: nat)
    requires Inv(s) && Bounded(s) && !s.aborted && t < |s.threads| && s.threads[t].pc.Calm? && CanOwn(s, h, Arc)
    requires OnlyLive(s, h) && UpToDate(s, t, h)
    ensures Certain(s, t, h)
  {
    var s1 := Step(s, t, BeginGetMut(h));
    Begins(s, t, h);
    LoneIsOne(s1, t, h);
    forall more: seq<(nat, Action)>, i: nat | OthersOnly(t, more)
      ensures CannotFail(Run(s1, more), t, i)
    {
      OthersIdleThroughout(s1, t, h, more);
    }
    forall i: nat, zeroth: seq<(nat, Action)>, first: seq<(nat, Action)>, second: seq<(nat, Action)>,
           third: seq<(nat, Action)>
      | OthersOnly(t, zeroth) && OthersOnly(t, first) && OthersOnly(t, second) && OthersOnly(t, third)
      ensures SaysSome(Then(s1, zeroth, t, Exchange), t, h, i, first, second, third)
    {
      SaysSomeAnyway(s1, t, h, i, zeroth, first, second, third);
    }
  }

  lemma NotAllOnes(s: State, t: nat)
    requires Adjacent(s) && !s.aborted && t < |s.threads| && s.threads[t].clock.alloc < |s.alloc|
    ensures s.threads[t].clock.alloc == |s.alloc| - 1 || exists i: nat :: !CannotFail(s, t, i)
  {
    var from := s.threads[t].clock.alloc;
    var next := from + 1;
    if next < |s.alloc| {
      assert s.alloc[next - 1].value != s.alloc[next].value;
      assert !CannotFail(s, t, from) || !CannotFail(s, t, next);
    }
  }

  lemma CertainMeansNewest(s: State, t: nat)
    requires Adjacent(s) && !s.aborted && t < |s.threads| && s.threads[t].clock.alloc < |s.alloc|
    requires forall i: nat :: CannotFail(s, t, i)
    ensures s.threads[t].clock.alloc == |s.alloc| - 1 && s.alloc[|s.alloc| - 1].value == 1
  {
    NotAllOnes(s, t);
    assert CannotFail(s, t, s.threads[t].clock.alloc);
  }

  /** Certainty, if nobody interferes. */
  lemma CertainAtOnce(s: State, t: nat, h: nat)
    requires Certain(s, t, h)
    ensures var s1 := Step(s, t, BeginGetMut(h));
      (forall i: nat :: CannotFail(s1, t, i)) && (forall i: nat :: SaysSome(Step(s1, t, Exchange), t, h, i, [], [], []))
  {
    var s1 := Step(s, t, BeginGetMut(h));
    var none: seq<(nat, Action)> := [];
    forall i: nat
      ensures CannotFail(s1, t, i) && SaysSome(Step(s1, t, Exchange), t, h, i, none, none, none)
    {
      assert CannotFail(Run(s1, none), t, i);
      assert SaysSome(Then(s1, none, t, Exchange), t, h, i, none, none, none);
    }
  }

  /** A refused load ends in None. */
  lemma RefusedEnds(s: State, t: nat, h: nat)
    requires Inv(s) && Bounded(s) && !s.aborted && t < |s.threads| && s.threads[t].pc == GmStore(h, false)
    ensures var s' := Step(Step(s, t, Continue(0)), t, Continue(0));
      !s'.aborted && t < |s'.threads| && s'.threads[t].pc == Calm
  {
    var s1 := Step(s, t, Continue(0));
    StepInv(s, t, Continue(0));
    UnlockingIs(s, t, Continue(0));
    assert ThreadOk(s, t);
    assert s1.threads[t].pc == Calm && !s1.aborted;
    assert Step(s1, t, Continue(0)) == s1;
  }

  lemma SaysMeansNewest(s: State, t: nat, h: nat)
    requires Inv(s) && Bounded(s) && !s.aborted && t < |s.threads| && s.threads[t].pc == GmLoad(h)
    requires SaysSome(s, t, h, s.threads[t].clock.data, [], [], [])
    ensures s.threads[t].clock.data == |s.data| - 1 && OnlyLive(s, h)
  {
    var i := s.threads[t].clock.data;
    assert ThreadOk(s, t);
    StepDecides(s, t, Continue(i));
    StepInv(s, t, Continue(i));
    var s1 := Step(s, t, Continue(i));
    LockingIs(s, t, Continue(i));
    if s1.threads[t].pc == GmStore(h, false) {
      RefusedEnds(s1, t, h);
    }
  }

  /** What it takes at the exchange. */
  lemma AtTheExchange(s: State, t: nat, h: nat)
    requires Inv(s) && Bounded(s) && !s.aborted && t < |s.threads| && s.threads[t].pc == GmCas(h) && Adjacent(s)
    requires forall i: nat :: CannotFail(s, t, i)
    requires forall i: nat :: SaysSome(Step(s, t, Exchange), t, h, i, [], [], [])
    ensures s.alloc != [] && OnlyLive(s, h) && s.threads[t].clock.alloc == |s.alloc| - 1
    ensures Max(s.threads[t].clock.data, LastAlloc(s).clock.data) == |s.data| - 1
  {
    assert ThreadOk(s, t);
    CertainMeansNewest(s, t);
    LockAcquires(s, t, h);
    SaysMeansNewest(Step(s, t, Exchange), t, h);
  }

  lemma OnlyIfCertain(s: State, t: nat, h: nat)
    requires Inv(s) && Bounded(s) && !s.aborted && t < |s.threads| && s.threads[t].pc.Calm? && CanOwn(s, h, Arc)
    requires Adjacent(s) && Certain(s, t, h)
    ensures OnlyLive(s, h) && UpToDate(s, t, h)
  {
    Begins(s, t, h);
    CertainAtOnce(s, t, h);
    AtTheExchange(Step(s, t, BeginGetMut(h)), t, h);
  }

  /**
   A call of get_mut is certain to end in Some, whatever others do during the call and however stale its reads
   may be, if and only if at its start the caller's `Arc` is the only handle and every update of both
   counters happens before the exchange: in the caller's own past or through the newest message of the
   second counter.
   */
  lemma CertainOfSome(n: nat, sched: seq<(nat, Action)>, t: nat, h: nat)
    requires AlwaysBounded(Init(n), sched)
    requires var s := Run(Init(n), sched);
      t < |s.threads| && !s.aborted && s.threads[t].pc.Calm? && CanOwn(s, h, Arc)
    ensures var s := Run(Init(n), sched);
      s.alloc != [] && (Certain(s, t, h) <==> OnlyLive(s, h) && UpToDate(s, t, h))
  {
    Reachable(n, sched);
    InitInv(n);
    RunAdjacent(Init(n), sched);
    var s := Run(Init(n), sched);
    if OnlyLive(s, h) && UpToDate(s, t, h) {
      CertainIf(s, t, h);
    }
    if Certain(s, t, h) {
      OnlyIfCertain(s, t, h);
    }
  }

  /** The five states of a get_mut that nobody disturbs, from `Arc::new` to the `&mut T`. */
  lemma FirstGrant(n: nat)
    requires n > 0
    ensures var s1 := Step(Init(n), 0, BeginGetMut(0)); var s2 := Step(s1, 0, Exchange);
      var s3 := Step(s2, 0, Continue(0)); var s4 := Step(s3, 0, Continue(0)); var s5 := Step(s4, 0, Continue(0));
      && Bounded(Init(n)) && Bounded(s1) && Bounded(s2) && Bounded(s3) && Bounded(s4) && Bounded(s5)
      && 0 < |s5.threads| && s5.threads[0].pc == Mutating(0)
  {
    var s0 := Init(n);
    InitInv(n);
    FewHandles(s0);
    Begins(s0, 0, 0);
    var s1 := Step(s0, 0, BeginGetMut(0));
    LoneIsOne(s1, 0, 0);
    LockAcquires(s1, 0, 0);
    var s2 := Step(s1, 0, Exchange);
    LoadStep(s2, 0, 0, 0);
    var s3 := Step(s2, 0, Continue(0));
    NextStep(s3, 0, 0, Continue(0));
    NextStep(Step(s3, 0, Continue(0)), 0, 0, Continue(0));
  }

  ghost predicate Grants(n: nat, sched: seq<(nat, Action)>) {
    && AlwaysBounded(Init(n), sched)
    && 0 < |Run(Init(n), sched).threads| && Run(Init(n), sched).threads[0].pc == Mutating(0)
  }

  /** The `&mut T` is reached by some run of any number of threads. */
  lemma SomeIsGranted(n: nat)
    requires n > 0
    ensures exists sched: seq<(nat, Action)> :: Grants(n, sched)
  {
    FirstGrant(n);
    var s0 := Init(n);
    var sched: seq<(nat, Action)> := [];
    RunSnoc(s0, sched, 0, BeginGetMut(0));
    sched := sched + [(0, BeginGetMut(0))];
    RunSnoc(s0, sched, 0, Exchange);
    sched := sched + [(0, Exchange)];
    RunSnoc(s0, sched, 0, Continue(0));
    sched := sched + [(0, Continue(0))];
    RunSnoc(s0, sched, 0, Continue(0));
    sched := sched + [(0, Continue(0))];
    RunSnoc(s0, sched, 0, Continue(0));
    sched := sched + [(0, Continue(0))];
    assert Grants(n, sched);
  }
}
