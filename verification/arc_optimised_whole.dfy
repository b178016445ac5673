/** Whole operations of the optimised implementation, without interference. */
module OptimisedWhole {
  import opened Borrowing
  import opened SettledHandles
  import ArcSpec
  import O = ArcOptimised

  const CALM := O.Choice(Deref, 0, false)

  /** No operation is in flight; a borrow of T may be alive. */
  predicate RestPc(pc: O.Pc) {
    pc.Idle? || pc.Reading? || pc.Mutating?
  }

  function Next(s: O.State, t: nat): O.State {
    if t >= |s.threads| || RestPc(s.threads[t]) then s else O.Step(s, t, CALM)
  }

  /** Thread `t` starts `op` and runs alone until it is over; at rest with a borrow of T it ends that borrow. */
  function Whole(s: O.State, t: nat, op: Op, h: nat): O.State {
    if t >= |s.threads| then s
    else if s.threads[t].Idle? then Next(Next(Next(Next(O.Begin(s, t, op, h), t), t), t), t)
    else O.Step(s, t, CALM)
  }

  predicate AtRest(s: O.State) {
    !s.aborted && NoStray(s.handles) && forall t | 0 <= t < |s.threads| :: RestPc(s.threads[t])
  }

  function RestOf(pc: O.Pc): ArcSpec.Rest {
    match pc
    case Reading(h) => ArcSpec.Reading(h)
    case Mutating(h) => ArcSpec.Writing(h)
    case _ => ArcSpec.Resting
  }

  function Abs(s: O.State): ArcSpec.Spec {
    ArcSpec.Spec(s.handles, seq(|s.threads|, t requires 0 <= t < |s.threads| => RestOf(s.threads[t])))
  }

  ghost predicate Good(s: O.State) {
    O.Inv(s) && AtRest(s)
  }

  /** At rest nobody owes anything, so the counters are plain functions of the handles. */
  lemma RestCounters(s: O.State)
    requires Good(s)
    ensures s.locker.Nobody? && s.last.Nobody? && s.freer.Nobody?
    ensures s.data == Arcs(s.handles)
    ensures s.alloc == Weaks(s.handles) + (if Arcs(s.handles) > 0 then 1 else 0)
    ensures s.dropped == (if ArcSpec.SomeArc(s.handles) then 0 else 1)
    ensures s.freed == (if ArcSpec.SomeHandle(s.handles) then 0 else 1)
  {
    assert s.locker.By? ==> O.PcOk(s, s.locker.t);
    assert s.last.By? ==> O.PcOk(s, s.last.t);
    assert s.freer.By? ==> O.PcOk(s, s.freer.t);
    SomeArcCounted(s.handles);
    SomeHandleCounted(s.handles);
  }

  lemma SameLoans(s: O.State)
    requires AtRest(s)
    ensures O.Loans(s.threads) == ArcSpec.Loans(Abs(s).rest)
  {
  }

  lemma Started(s: O.State, t: nat, op: Op, h: nat)
    requires Good(s) && Small(s.handles) && t < |s.threads| && s.threads[t].Idle?
    ensures O.LoanOf(O.First(op, h)) == ArcSpec.Needs(op, h)
    ensures var s1 := O.Begin(s, t, op, h);
      if Admits(Abs(s).handles, ArcSpec.Loans(Abs(s).rest), ArcSpec.Needs(op, h))
      then s1 == O.Goto(s, t, O.First(op, h)) && O.Inv(s1) && Backed(s.handles, ArcSpec.Needs(op, h))
      else s1 == s
  {
    SameLoans(s);
    O.StepInv(s, t, O.Choice(op, h, false));
  }

  lemma Created(s: O.State, t: nat, op: Op, h: nat)
    requires Good(s) && Small(s.handles) && t < |s.threads| && s.threads[t].Idle?
    requires op == Deref || op == Clone || op == CloneWeak
    ensures Good(Whole(s, t, op, h)) && Abs(Whole(s, t, op, h)) == ArcSpec.Apply(Abs(s), t, op, h)
  {
    Started(s, t, op, h);
    RestCounters(s);
    var s1 := O.Begin(s, t, op, h);
    if s1 != s && op != Deref {
      O.StepInv(s1, t, CALM);
      assert Next(s1, t).threads == s.threads;
    }
  }

  /** The load and the compare-exchange of downgrade. */
  lemma Raised(s: O.State, t: nat, h: nat)
    requires O.Inv(s) && !s.aborted && Small(s.handles) && s.locker.Nobody? && s.last.Nobody?
    requires t < |s.threads| && s.threads[t] == O.DownLoad(h)
    ensures var s2 := Next(Next(s, t), t);
      O.Inv(s2) && !s2.aborted && s2.handles == s.handles + [Weak] && s2.threads == s.threads[t := O.Idle]
  {
    O.StepInv(s, t, CALM);
    O.StepInv(Next(s, t), t, CALM);
  }

  lemma Downgraded(s: O.State, t: nat, h: nat)
    requires Good(s) && Small(s.handles) && t < |s.threads| && s.threads[t].Idle?
    ensures Good(Whole(s, t, Downgrade, h))
    ensures Abs(Whole(s, t, Downgrade, h)) == ArcSpec.Apply(Abs(s), t, Downgrade, h)
  {
    Started(s, t, Downgrade, h);
    RestCounters(s);
    var s1 := O.Begin(s, t, Downgrade, h);
    if s1 != s {
      Raised(s1, t, h);
      assert Next(Next(s1, t), t).threads == s.threads;
    }
  }

  /** The load of upgrade and, if it sees an `Arc`, the compare-exchange. */
  lemma Counted(s: O.State, t: nat, h: nat)
    requires O.Inv(s) && !s.aborted && Small(s.handles) && t < |s.threads| && s.threads[t] == O.UpLoad(h)
    ensures var s2 := if s.data > 0 then Next(Next(s, t), t) else Next(s, t);
      && O.Inv(s2) && !s2.aborted && s2.threads == s.threads[t := O.Idle]
      && s2.handles == if s.data > 0 then s.handles + [Arc] else s.handles
  {
    O.StepInv(s, t, CALM);
    if s.data > 0 {
      O.StepInv(Next(s, t), t, CALM);
    }
  }

  lemma Upgraded(s: O.State, t: nat, h: nat)
    requires Good(s) && Small(s.handles) && t < |s.threads| && s.threads[t].Idle?
    ensures Good(Whole(s, t, Upgrade, h)) && Abs(Whole(s, t, Upgrade, h)) == ArcSpec.Apply(Abs(s), t, Upgrade, h)
  {
    Started(s, t, Upgrade, h);
    RestCounters(s);
    SomeArcCounted(s.handles);
    var s1 := O.Begin(s, t, Upgrade, h);
    if s1 != s {
      Counted(s1, t, h);
      var s2 := if s.data > 0 then Next(Next(s1, t), t) else Next(s1, t);
      assert s2.threads == s.threads;
    }
  }

  /** The two steps of get_mut behind a successful compare-exchange. */
  lemma Decided(s: O.State, t: nat, h: nat)
    requires O.Inv(s) && !s.aborted && Small(s.handles) && t < |s.threads| && s.threads[t] == O.GmLoad(h)
    ensures var s2 := Next(Next(s, t), t);
      && O.Inv(s2) && !s2.aborted && s2.handles == s.handles
      && s2.threads == s.threads[t := if s.data == 1 then O.Mutating(h) else O.Idle]
  {
    O.StepInv(s, t, CALM);
    O.StepInv(Next(s, t), t, CALM);
  }

  lemma Locked(s: O.State, t: nat, h: nat)
    requires O.Inv(s) && !s.aborted && Small(s.handles) && t < |s.threads| && s.threads[t] == O.GmCas(h)
    ensures var s3 := Next(Next(Next(s, t), t), t);
      && O.Inv(s3) && !s3.aborted && s3.handles == s.handles
      && s3.threads == s.threads[t := if s.alloc == 1 && s.data == 1 then O.Mutating(h) else O.Idle]
  {
    O.StepInv(s, t, CALM);
    if s.alloc == 1 {
      Decided(Next(s, t), t, h);
    }
  }

  lemma GotMut(s: O.State, t: nat, h: nat)
    requires Good(s) && Small(s.handles) && t < |s.threads| && s.threads[t].Idle?
    ensures Good(Whole(s, t, GetMut, h)) && Abs(Whole(s, t, GetMut, h)) == ArcSpec.Apply(Abs(s), t, GetMut, h)
  {
    Started(s, t, GetMut, h);
    RestCounters(s);
    var s1 := O.Begin(s, t, GetMut, h);
    if s1 != s {
      OnlyCounted(s.handles, h);
      Alive(s1.handles, O.Loans(s1.threads), t);
      Locked(s1, t, h);
      assert Next(Next(Next(s1, t), t), t).threads
          == s.threads[t := if s.alloc == 1 && s.data == 1 then O.Mutating(h) else O.Idle];
    }
  }

  lemma Freed(s: O.State, t: nat)
    requires O.Inv(s) && !s.aborted && Small(s.handles) && t < |s.threads| && s.threads[t] == O.Freeing
    ensures var s1 := Next(s, t);
      O.Inv(s1) && !s1.aborted && s1.handles == s.handles && s1.threads == s.threads[t := O.Idle]
  {
    O.StepInv(s, t, CALM);
  }

  lemma ImplicitDropped(s: O.State, t: nat)
    requires O.Inv(s) && !s.aborted && Small(s.handles) && t < |s.threads| && s.threads[t] == O.DropImplicit
    ensures var s2 := Next(Next(s, t), t);
      O.Inv(s2) && !s2.aborted && s2.handles == s.handles && s2.threads == s.threads[t := O.Idle]
  {
    O.StepInv(s, t, CALM);
    if s.alloc == 1 {
      Freed(Next(s, t), t);
    }
  }

  /** The last dropper drops T, the implicit weak reference and, if it was the last, the block. */
  lemma LastDropped(s: O.State, t: nat)
    requires O.Inv(s) && !s.aborted && Small(s.handles) && t < |s.threads| && s.threads[t] == O.DropData
    ensures var s3 := Next(Next(Next(s, t), t), t);
      O.Inv(s3) && !s3.aborted && s3.handles == s.handles && s3.threads == s.threads[t := O.Idle]
  {
    O.StepInv(s, t, CALM);
    ImplicitDropped(Next(s, t), t);
  }

  lemma Dropped(s: O.State, t: nat, h: nat)
    requires Good(s) && Small(s.handles) && t < |s.threads| && s.threads[t].Idle?
    ensures Good(Whole(s, t, Drop, h)) && Abs(Whole(s, t, Drop, h)) == ArcSpec.Apply(Abs(s), t, Drop, h)
  {
    Started(s, t, Drop, h);
    RestCounters(s);
    var s1 := O.Begin(s, t, Drop, h);
    if s1 != s {
      var s2 := Next(s1, t);
      O.StepInv(s1, t, CALM);
      Changed(s.handles, h, Gone);
      if s.data == 1 {
        LastDropped(s2, t);
        assert Next(Next(Next(s2, t), t), t).threads == s.threads;
      } else {
        assert s2.threads == s.threads;
      }
    }
  }

  lemma WeakGone(s: O.State, t: nat, h: nat)
    requires O.Inv(s) && !s.aborted && Small(s.handles) && t < |s.threads| && s.threads[t] == O.WeakDropping(h)
    ensures h < |s.handles|
    ensures var s2 := Next(Next(s, t), t);
      O.Inv(s2) && !s2.aborted && s2.handles == s.handles[h := Gone] && s2.threads == s.threads[t := O.Idle]
  {
    O.Dropped(s, t, h);
    O.StepInv(s, t, CALM);
    if s.alloc == 1 {
      Freed(Next(s, t), t);
    }
  }

  lemma WeakDropped(s: O.State, t: nat, h: nat)
    requires Good(s) && Small(s.handles) && t < |s.threads| && s.threads[t].Idle?
    ensures Good(Whole(s, t, DropWeak, h)) && Abs(Whole(s, t, DropWeak, h)) == ArcSpec.Apply(Abs(s), t, DropWeak, h)
  {
    Started(s, t, DropWeak, h);
    RestCounters(s);
    var s1 := O.Begin(s, t, DropWeak, h);
    if s1 != s {
      WeakGone(s1, t, h);
      assert Next(Next(s1, t), t).threads == s.threads;
    }
  }

  lemma WholeMeansSpec(s: O.State, t: nat, op: Op, h: nat)
    requires Good(s) && Small(s.handles)
    ensures Good(Whole(s, t, op, h)) && Abs(Whole(s, t, op, h)) == ArcSpec.Apply(Abs(s), t, op, h)
  {
    if t < |s.threads| {
      if !s.threads[t].Idle? {
        O.StepInv(s, t, CALM);
        assert O.Step(s, t, CALM).handles == s.handles;
      } else {
        match op
        case Deref | Clone | CloneWeak => Created(s, t, op, h);
        case Downgrade => Downgraded(s, t, h);
        case Upgrade => Upgraded(s, t, h);
        case GetMut => GotMut(s, t, h);
        case Drop => Dropped(s, t, h);
        case DropWeak => WeakDropped(s, t, h);
      }
    }
  }
}
