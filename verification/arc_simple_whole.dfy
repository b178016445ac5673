/** Whole operations of the simple implementation, without interference. */
module SimpleWhole {
  import opened Sums
  import opened Usize
  import opened Borrowing
  import opened SettledHandles
  import ArcSpec
  import S = ArcSimple

  const CALM := S.Choice(Deref, 0, false)

  predicate RestPc(pc: S.Pc) {
    pc.Idle? || pc.Reading? || pc.Mutating?
  }

  function Next(s: S.State, t: nat): S.State {
    if t >= |s.threads| || RestPc(s.threads[t]) then s else S.Step(s, t, CALM)
  }

  function Whole(s: S.State, t: nat, op: Op, h: nat): S.State {
    if t >= |s.threads| then s
    else if s.threads[t].Idle? then Next(Next(Next(Next(S.Begin(s, t, op, h), t), t), t), t)
    else S.Step(s, t, CALM)
  }

  predicate AtRest(s: S.State) {
    !s.aborted && NoStray(s.handles) && forall t | 0 <= t < |s.threads| :: RestPc(s.threads[t])
  }

  function RestOf(pc: S.Pc): ArcSpec.Rest {
    match pc
    case Reading(h) => ArcSpec.Reading(h)
    case Mutating(h) => ArcSpec.Writing(h)
    case _ => ArcSpec.Resting
  }

  function Abs(s: S.State): ArcSpec.Spec {
    ArcSpec.Spec(s.handles, seq(|s.threads|, t requires 0 <= t < |s.threads| => RestOf(s.threads[t])))
  }

  ghost predicate Good(s: S.State) {
    S.Inv(s) && AtRest(s)
  }

  lemma {:induction false} AllocsSplit(handles: seq<Handle>)
    requires NoStray(handles)
    ensures S.Allocs(handles) == Arcs(handles) + Weaks(handles)
  {
    if handles == [] {
    } else {
      AllocsSplit(handles[1..]);
    }
  }

  lemma RestCounters(s: S.State)
    requires Good(s)
    ensures s.last.Nobody? && s.freer.Nobody?
    ensures s.data == Arcs(s.handles)
    ensures s.alloc == S.Allocs(s.handles) == Arcs(s.handles) + Weaks(s.handles)
    ensures s.dropped == (if ArcSpec.SomeArc(s.handles) then 0 else 1)
    ensures s.freed == (if ArcSpec.SomeHandle(s.handles) then 0 else 1)
  {
    assert s.last.By? ==> S.PcOk(s, s.last.t);
    assert s.freer.By? ==> S.PcOk(s, s.freer.t);
    SomeArcCounted(s.handles);
    SomeHandleCounted(s.handles);
    AllocsSplit(s.handles);
  }

  lemma SameLoans(s: S.State)
    requires AtRest(s)
    ensures S.Loans(s.threads) == ArcSpec.Loans(Abs(s).rest)
  {
  }

  lemma Started(s: S.State, t: nat, op: Op, h: nat)
    requires Good(s) && Small(s.handles) && t < |s.threads| && s.threads[t].Idle?
    ensures S.LoanOf(S.First(op, h)) == ArcSpec.Needs(op, h)
    ensures var s1 := S.Begin(s, t, op, h);
      if Admits(Abs(s).handles, ArcSpec.Loans(Abs(s).rest), ArcSpec.Needs(op, h))
      then s1 == S.Goto(s, t, S.First(op, h)) && S.Inv(s1) && Backed(s.handles, ArcSpec.Needs(op, h))
      else s1 == s
  {
    SameLoans(s);
    RestCounters(s);
    S.StepInv(s, t, S.Choice(op, h, false));
  }

  lemma Simplest(s: S.State, t: nat, op: Op, h: nat)
    requires Good(s) && Small(s.handles) && t < |s.threads| && s.threads[t].Idle?
    requires op == Deref || op == Downgrade || op == CloneWeak
    ensures Good(Whole(s, t, op, h)) && Abs(Whole(s, t, op, h)) == ArcSpec.Apply(Abs(s), t, op, h)
  {
    Started(s, t, op, h);
    RestCounters(s);
    var s1 := S.Begin(s, t, op, h);
    if s1 != s && op != Deref {
      S.StepInv(s1, t, CALM);
      assert Next(s1, t).threads == s.threads;
    }
  }

  lemma GotMut(s: S.State, t: nat, h: nat)
    requires Good(s) && Small(s.handles) && t < |s.threads| && s.threads[t].Idle?
    ensures Good(Whole(s, t, GetMut, h)) && Abs(Whole(s, t, GetMut, h)) == ArcSpec.Apply(Abs(s), t, GetMut, h)
  {
    Started(s, t, GetMut, h);
    RestCounters(s);
    var s1 := S.Begin(s, t, GetMut, h);
    if s1 != s {
      OnlyCounted(s.handles, h);
      S.StepInv(s1, t, CALM);
      assert Next(s1, t).threads == s.threads[t := if s.alloc == 1 then S.Mutating(h) else S.Idle];
    }
  }

  lemma Cloned(s: S.State, t: nat, h: nat)
    requires Good(s) && Small(s.handles) && t < |s.threads| && s.threads[t].Idle?
    ensures Good(Whole(s, t, Clone, h)) && Abs(Whole(s, t, Clone, h)) == ArcSpec.Apply(Abs(s), t, Clone, h)
  {
    Started(s, t, Clone, h);
    RestCounters(s);
    var s1 := S.Begin(s, t, Clone, h);
    if s1 != s {
      var s2 := Next(s1, t);
      S.StepInv(s1, t, CALM);
      S.StepInv(s2, t, CALM);
      assert Next(s2, t).handles == s.handles + [Arc];
      assert Next(s2, t).threads == s.threads;
    }
  }

  /** The two increments of a successful upgrade. */
  lemma Raised(s: S.State, t: nat, h: nat, n: nat)
    requires S.Inv(s) && !s.aborted && S.Bounded(s) && t < |s.threads| && s.threads[t] == S.UpCas(h, n)
    requires s.data == n < MAX - 2 && s.alloc <= MAX / 2
    ensures var s2 := Next(Next(s, t), t);
      && S.Inv(s2) && !s2.aborted && s2.handles == s.handles + [Arc] && s2.threads == s.threads[t := S.Idle]
  {
    S.StepInv(s, t, CALM);
    S.StepInv(Next(s, t), t, CALM);
    assert Next(Next(s, t), t).handles == s.handles + [Arc];
    assert Next(Next(s, t), t).threads == s.threads[t := S.Idle];
  }

  lemma Upgraded(s: S.State, t: nat, h: nat)
    requires Good(s) && Small(s.handles) && t < |s.threads| && s.threads[t].Idle?
    ensures Good(Whole(s, t, Upgrade, h)) && Abs(Whole(s, t, Upgrade, h)) == ArcSpec.Apply(Abs(s), t, Upgrade, h)
  {
    Started(s, t, Upgrade, h);
    RestCounters(s);
    SomeArcCounted(s.handles);
    var s1 := S.Begin(s, t, Upgrade, h);
    if s1 != s {
      var s2 := Next(s1, t);
      S.StepInv(s1, t, CALM);
      if s.data > 0 {
        SumAtLeast(s.handles, h, WeakShare);
        Raised(s2, t, h, s.data);
        assert Next(Next(s2, t), t).threads == s.threads;
      } else {
        assert s2.threads == s.threads;
      }
    }
  }

  lemma Freed(s: S.State, t: nat)
    requires S.Inv(s) && !s.aborted && S.Bounded(s) && t < |s.threads| && s.threads[t] == S.Freeing
    ensures var s1 := Next(s, t);
      S.Inv(s1) && !s1.aborted && s1.handles == s.handles && s1.threads == s.threads[t := S.Idle]
  {
    S.StepInv(s, t, CALM);
  }

  /** The part of a drop that lowers the second counter. */
  lemma Lowered(s: S.State, t: nat, i: nat)
    requires S.Inv(s) && !s.aborted && S.Bounded(s) && t < |s.threads|
    requires s.threads[t] == S.DropAlloc(i) || s.threads[t] == S.WeakDropping(i)
    ensures i < |s.handles|
    ensures var s2 := Next(Next(s, t), t);
      S.Inv(s2) && !s2.aborted && s2.handles == s.handles[i := Gone] && s2.threads == s.threads[t := S.Idle]
  {
    S.Dropped(s, t, i);
    S.StepInv(s, t, CALM);
    var s1 := Next(s, t);
    if s.alloc == 1 {
      Freed(s1, t);
    }
  }

  lemma WeakDropped(s: S.State, t: nat, h: nat)
    requires Good(s) && Small(s.handles) && t < |s.threads| && s.threads[t].Idle?
    ensures Good(Whole(s, t, DropWeak, h)) && Abs(Whole(s, t, DropWeak, h)) == ArcSpec.Apply(Abs(s), t, DropWeak, h)
  {
    Started(s, t, DropWeak, h);
    RestCounters(s);
    var s1 := S.Begin(s, t, DropWeak, h);
    if s1 != s {
      Lowered(s1, t, h);
      assert Next(Next(s1, t), t).threads == s.threads;
    }
  }

  /** The part of a drop that lowers the first counter and, if it was the last `Arc`, drops T. */
  lemma FirstHalf(s: S.State, t: nat, h: nat)
    requires S.Inv(s) && !s.aborted && S.Bounded(s) && t < |s.threads| && s.threads[t] == S.Dropping(h)
    ensures h < |s.handles|
    ensures var s1 := Next(s, t); var s2 := if s.data == 1 then Next(s1, t) else s1;
      && S.Inv(s2) && !s2.aborted && S.Bounded(s2) && s2.handles == s.handles[h := Stray(0, 1, t)]
      && s2.threads == s.threads[t := S.DropAlloc(h)]
  {
    S.WorksOn(s, t);
    var s1 := Next(s, t);
    S.StepInv(s, t, CALM);
    Changed(s.handles, h, Stray(0, 1, t));
    SumUpdate(s.handles, h, Stray(0, 1, t), S.AllocShare);
    if s.data == 1 {
      S.StepInv(s1, t, CALM);
    }
  }

  lemma BothHalves(s: S.State, t: nat, h: nat)
    requires S.Inv(s) && !s.aborted && S.Bounded(s) && t < |s.threads| && s.threads[t] == S.Dropping(h)
    ensures h < |s.handles|
    ensures var s4 := Next(Next(Next(Next(s, t), t), t), t);
      S.Inv(s4) && !s4.aborted && s4.handles == s.handles[h := Gone] && s4.threads == s.threads[t := S.Idle]
  {
    FirstHalf(s, t, h);
    var s2 := if s.data == 1 then Next(Next(s, t), t) else Next(s, t);
    Lowered(s2, t, h);
  }

  lemma Dropped(s: S.State, t: nat, h: nat)
    requires Good(s) && Small(s.handles) && t < |s.threads| && s.threads[t].Idle?
    ensures Good(Whole(s, t, Drop, h)) && Abs(Whole(s, t, Drop, h)) == ArcSpec.Apply(Abs(s), t, Drop, h)
  {
    Started(s, t, Drop, h);
    RestCounters(s);
    var s1 := S.Begin(s, t, Drop, h);
    if s1 != s {
      BothHalves(s1, t, h);
      assert Next(Next(Next(Next(s1, t), t), t), t).threads == s.threads;
    }
  }

  lemma WholeMeansSpec(s: S.State, t: nat, op: Op, h: nat)
    requires Good(s) && Small(s.handles)
    ensures Good(Whole(s, t, op, h)) && Abs(Whole(s, t, op, h)) == ArcSpec.Apply(Abs(s), t, op, h)
  {
    if t < |s.threads| {
      if !s.threads[t].Idle? {
        RestCounters(s);
        S.StepInv(s, t, CALM);
        assert S.Step(s, t, CALM).handles == s.handles;
      } else {
        match op
        case Deref | Downgrade | CloneWeak => Simplest(s, t, op, h);
        case GetMut => GotMut(s, t, h);
        case Clone => Cloned(s, t, h);
        case Upgrade => Upgraded(s, t, h);
        case Drop => Dropped(s, t, h);
        case DropWeak => WeakDropped(s, t, h);
      }
    }
  }
}
