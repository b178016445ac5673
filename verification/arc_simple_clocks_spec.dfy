/**
 What every step of the simple `Arc` does, said without counters, messages and clocks: a specification that
 counts references instead, as for the optimised one.
 */
module SimpleClocksSpec {
  import opened References
  import opened Sums
  import opened Usize
  import opened SimpleClocks
  import opened SimpleClocksBorrows
  import opened SimpleClocksRelation
  import opened SimpleClocksInv
  import opened SimpleClocksRuns
  import A = ArcClocks

  datatype Ref = Ref(kind: Kind, status: Status)
  datatype Side = Side(pc: Pc, shared: set<nat>)

  datatype View = View(refs: seq<Ref>, sides: seq<Side>, dropped: nat, freed: nat, aborted: bool,
                       events: nat, touched: set<nat>, writes: set<nat>)

  /** The value that a load returns, if it returns one. */
  datatype Load = Nothing | Value(n: nat)

  // ----- The specification -----

  function StrongRef(x: Ref): nat {
    if (x.kind == Arc || x.kind == Lost) && x.status != Gone then 1 else 0
  }

  function AnyRef(x: Ref): nat {
    if x.status == Gone then 0 else 1
  }

  function RisingSide(x: Side): nat {
    if x.pc.UpAlloc? then 1 else 0
  }

  /** What keeps T: every `Arc`, also one that an upgrade is about to make. */
  function Strong(v: View): nat {
    Sum(v.refs, StrongRef) + Sum(v.sides, RisingSide)
  }

  /** What keeps the block: every reference. */
  function Keepers(v: View): nat {
    Sum(v.refs, AnyRef)
  }

  predicate Lives(v: View, h: nat, kind: Kind) {
    h < |v.refs| && v.refs[h] == Ref(kind, Live)
  }

  predicate Unowned(v: View, h: nat) {
    forall u | 0 <= u < |v.sides| :: !Owns(v.sides[u].pc, h)
  }

  predicate Unused(v: View, h: nat) {
    Unowned(v, h) && forall u | 0 <= u < |v.sides| :: h !in v.sides[u].shared
  }

  function Move(v: View, t: nat, pc: Pc): View
    requires t < |v.sides|
  {
    v.(sides := v.sides[t := v.sides[t].(pc := pc)])
  }

  /** The same with an access to the block. */
  function Act(v: View, t: nat, pc: Pc): View
    requires t < |v.sides|
  {
    Move(v, t, pc).(events := v.events + 1)
  }

  /** A new reference; beyond the limit the process is about to abort. */
  function Create(v: View, t: nat, kind: Kind, pc: Pc): View
    requires t < |v.sides|
  {
    if Keepers(v) > MAX / 2 then Act(v, t, Aborting).(refs := v.refs + [Ref(kind, Doomed)])
    else Act(v, t, pc).(refs := v.refs + [Ref(kind, Live)])
  }

  function Turn(v: View, h: nat, x: Ref): View
    requires h < |v.refs|
  {
    v.(refs := v.refs[h := x])
  }

  function SpecShared(v: View, t: nat, a: Action): View
    requires t < |v.sides|
  {
    var shared := v.sides[t].shared;
    match a
    case BeginShared(h) =>
      if (Lives(v, h, Arc) || Lives(v, h, Weak)) && Unowned(v, h)
      then v.(sides := v.sides[t := v.sides[t].(shared := shared + {h})]) else v
    case EndShared(h) => if h in shared then v.(sides := v.sides[t := v.sides[t].(shared := shared - {h})]) else v
    case Read(h) =>
      if h in shared && Lives(v, h, Arc) then v.(events := v.events + 1, touched := v.touched + {v.events}) else v
    case Clone(h) => if h in shared && Lives(v, h, Arc) then Create(v, t, Half, Cloning(h, |v.refs|)) else v
    case NewWeak(h) => if h in shared then Create(v, t, Weak, Calm) else v
    case BeginUpgrade(h) => if h in shared && Lives(v, h, Weak) then Move(v, t, UpLoad(h)) else v
    case _ => v
  }

  function SpecCalm(v: View, t: nat, a: Action): View
    requires t < |v.sides|
  {
    match a
    case BeginDrop(h) => if Lives(v, h, Arc) && Unused(v, h) then Move(v, t, Dropping(h)) else v
    case BeginDropWeak(h) => if Lives(v, h, Weak) && Unused(v, h) then Move(v, t, DropAlloc(h)) else v
    case BeginGetMut(h) => if Lives(v, h, Arc) && Unused(v, h) then Move(v, t, GmLoad(h)) else v
    case _ => SpecShared(v, t, a)
  }

  /** The second half of clone, and upgrade, which succeeds if it has read what keeps T. */
  function SpecThrough(v: View, t: nat, a: Action, seen: Load): View
    requires t < |v.sides|
  {
    match v.sides[t].pc
    case Cloning(_, g) =>
      if g >= |v.refs| then v
      else if Strong(v) > MAX / 2 then Turn(Act(v, t, Aborting), g, v.refs[g].(kind := Lost))
      else Turn(Act(v, t, Calm), g, v.refs[g].(kind := Arc))
    case UpLoad(h) => if seen.Value? then Act(v, t, if seen.n == 0 then Calm else UpCas(h, seen.n)) else v
    case UpCas(h, n) =>
      if a.Exchange? then (if Strong(v) == n then Act(v, t, UpAlloc(h)) else v)
      else if seen.Value? then Act(v, t, if seen.n == 0 then Calm else UpCas(h, seen.n)) else v
    case UpAlloc(_) => Create(v, t, Arc, Calm)
    case _ => v
  }

  /** The last `Arc` ends T, and the last reference the block. */
  function SpecDrop(v: View, t: nat): View
    requires t < |v.sides|
  {
    match v.sides[t].pc
    case Dropping(h) =>
      if h >= |v.refs| then v
      else Turn(Act(v, t, if Strong(v) == 1 then DropFence(h) else DropAlloc(h)), h, v.refs[h].(kind := Half))
    case DropFence(h) => Move(v, t, DropT(h))
    case DropT(h) => Act(v, t, DropAlloc(h)).(dropped := v.dropped + 1)
    case DropAlloc(h) =>
      if h >= |v.refs| then v
      else Turn(Act(v, t, if Keepers(v) == 1 then FreeFence else Calm), h, v.refs[h].(status := Gone))
    case FreeFence => Move(v, t, Freeing)
    case Freeing => Move(v, t, Calm).(freed := v.freed + 1)
    case _ => v
  }

  /** get_mut goes on to Some if it reads 1. */
  function SpecGetMut(v: View, t: nat, a: Action, seen: Load): View
    requires t < |v.sides|
  {
    match v.sides[t].pc
    case GmLoad(h) => if seen.Value? then Act(v, t, if seen.n == 1 then GmFence(h) else Calm) else v
    case GmFence(h) => Move(v, t, Mutating(h))
    case Mutating(h) =>
      if a.Write? then
        v.(events := v.events + 1, touched := v.touched + {v.events}, writes := v.writes + {v.events})
      else if a.EndMut? then Move(v, t, Calm) else v
    case _ => v
  }

  function SpecStep(v: View, t: nat, a: Action, seen: Load): View {
    if v.aborted || t >= |v.sides| then v else
    match v.sides[t].pc
    case Calm => SpecCalm(v, t, a)
    case Cloning(_, _) | UpLoad(_) | UpCas(_, _) | UpAlloc(_) => SpecThrough(v, t, a, seen)
    case GmLoad(_) | GmFence(_) | Mutating(_) => SpecGetMut(v, t, a, seen)
    case Aborting => v.(aborted := true)
    case _ => SpecDrop(v, t)
  }

  // ----- Seeing the weak memory model as the specification -----

  function RefOf(x: Handle): Ref {
    Ref(x.kind, x.status)
  }

  function SideOf(th: Thread): Side {
    Side(th.pc, th.shared)
  }

  function RefsOf(handles: seq<Handle>): (refs: seq<Ref>)
    ensures |refs| == |handles| && forall h | 0 <= h < |refs| :: refs[h] == RefOf(handles[h])
  {
    seq(|handles|, h requires 0 <= h < |handles| => RefOf(handles[h]))
  }

  function SidesOf(threads: seq<Thread>): (sides: seq<Side>)
    ensures |sides| == |threads| && forall t | 0 <= t < |sides| :: sides[t] == SideOf(threads[t])
  {
    seq(|threads|, t requires 0 <= t < |threads| => SideOf(threads[t]))
  }

  function ViewOf(s: State): View {
    View(RefsOf(s.handles), SidesOf(s.threads), s.dropped, s.freed, s.aborted, s.events, s.touched, s.writes)
  }

  /** What the load of message `i` by thread `t` returns. */
  function Seen(s: State, t: nat, a: Action): Load {
    if t >= |s.threads| || !a.Continue? then Nothing else
    match s.threads[t].pc
    case UpLoad(_) | UpCas(_, _) =>
      if s.threads[t].clock.data <= a.i < |s.data| then Value(s.data[a.i].value) else Nothing
    case GmLoad(_) => if s.threads[t].clock.alloc <= a.i < |s.alloc| then Value(s.alloc[a.i].value) else Nothing
    case _ => Nothing
  }

  lemma {:induction false} SameShares(handles: seq<Handle>)
    ensures Sum(RefsOf(handles), StrongRef) == Sum(handles, ArcShare)
    ensures Sum(RefsOf(handles), AnyRef) == Sum(handles, Share)
  {
    if handles == [] {
    } else {
      assert RefsOf(handles)[1..] == RefsOf(handles[1..]);
      SameShares(handles[1..]);
    }
  }

  lemma {:induction false} SameRising(threads: seq<Thread>)
    ensures Sum(SidesOf(threads), RisingSide) == Sum(threads, Rising)
  {
    if threads == [] {
    } else {
      assert SidesOf(threads)[1..] == SidesOf(threads[1..]);
      SameRising(threads[1..]);
    }
  }

  /** The counters hold the numbers of references. */
  lemma Numbers(s: State, a: A.State)
    requires Inv(s, a)
    ensures LastData(s).value == Strong(ViewOf(s)) && LastAlloc(s).value == Keepers(ViewOf(s))
  {
    SameShares(s.handles);
    SameRising(s.threads);
    SharesAgree(s.handles, a.handles);
    assert MsgRelated(LastAlloc(s), A.Last(a));
  }

  lemma SidesMove(threads: seq<Thread>, t: nat, th: Thread)
    requires t < |threads|
    ensures SidesOf(threads[t := th]) == SidesOf(threads)[t := SideOf(th)]
  {
  }

  lemma RefsChange(handles: seq<Handle>, h: nat, x: Handle)
    requires h < |handles|
    ensures RefsOf(handles[h := x]) == RefsOf(handles)[h := RefOf(x)]
  {
  }

  lemma RefsGrow(handles: seq<Handle>, x: Handle)
    ensures RefsOf(handles + [x]) == RefsOf(handles) + [RefOf(x)]
  {
  }

  /** The guards of the weak memory model are those of the specification. */
  lemma Guards(s: State, h: nat)
    ensures var v := ViewOf(s);
      && (forall kind: Kind :: IsLive(s, h, kind) <==> Lives(v, h, kind))
      && (CanShare(s, h) <==> (Lives(v, h, Arc) || Lives(v, h, Weak)) && Unowned(v, h))
      && (forall kind: Kind :: CanOwn(s, h, kind) <==> Lives(v, h, kind) && Unused(v, h))
  {
    var v := ViewOf(s);
    assert h < |s.handles| ==> v.refs[h] == RefOf(s.handles[h]);
    assert forall kind: Kind :: IsLive(s, h, kind) <==> Lives(v, h, kind);
    assert Usable(s, h) <==> Lives(v, h, Arc) || Lives(v, h, Weak);
    forall u | 0 <= u < |s.threads|
      ensures Owns(v.sides[u].pc, h) <==> Owns(s.threads[u].pc, h)
      ensures h in v.sides[u].shared <==> h in s.threads[u].shared
    {
      assert v.sides[u] == SideOf(s.threads[u]);
    }
  }

  // ----- Every step is a step of the specification -----

  lemma BeginSharedConforms(s: State, t: nat, h: nat)
    requires t < |s.threads|
    ensures ViewOf(BeginSharedStep(s, t, h)) == SpecShared(ViewOf(s), t, BeginShared(h))
  {
    Guards(s, h);
    if CanShare(s, h) { SidesMove(s.threads, t, BeginSharedStep(s, t, h).threads[t]); }
  }

  lemma EndSharedConforms(s: State, t: nat, h: nat)
    requires t < |s.threads| && (h in s.threads[t].shared ==> h < |s.handles|)
    ensures ViewOf(EndSharedStep(s, t, h)) == SpecShared(ViewOf(s), t, EndShared(h))
  {
    if h in s.threads[t].shared {
      var s' := EndSharedStep(s, t, h);
      SidesMove(s.threads, t, s'.threads[t]);
      RefsChange(s.handles, h, s'.handles[h]);
      assert RefsOf(s'.handles) == RefsOf(s.handles);
    }
  }

  lemma ReadConforms(s: State, t: nat, h: nat)
    requires t < |s.threads|
    ensures ViewOf(ReadStep(s, t, h)) == SpecShared(ViewOf(s), t, Read(h))
  {
    Guards(s, h);
    SidesMove(s.threads, t, Touch(s, t).threads[t]);
    assert SidesOf(Touch(s, t).threads) == SidesOf(s.threads);
  }

  lemma BeginConforms(s: State, t: nat, a: Action)
    requires t < |s.threads| && s.alloc != []
    requires a.BeginUpgrade? || a.BeginDrop? || a.BeginDropWeak? || a.BeginGetMut?
    ensures ViewOf(CalmStep(s, t, a)) == SpecCalm(ViewOf(s), t, a)
  {
    Guards(s, a.h);
    SidesMove(s.threads, t, CalmStep(s, t, a).threads[t]);
  }

  /** A step with an access that leaves the handles as they were. */
  lemma ActConforms(s: State, s': State, t: nat)
    requires OneThread(s, s', t) && s'.threads[t].shared == s.threads[t].shared && s'.handles == s.handles
    requires s'.dropped == s.dropped && s'.freed == s.freed && s'.aborted == s.aborted
    requires s'.events == s.events + 1 && s'.touched == s.touched && s'.writes == s.writes
    ensures ViewOf(s') == Act(ViewOf(s), t, s'.threads[t].pc)
  {
    SidesMove(s.threads, t, s'.threads[t]);
  }

  lemma TurnConforms(s: State, s': State, t: nat, h: nat)
    requires OneThread(s, s', t) && s'.threads[t].shared == s.threads[t].shared && h < |s.handles| == |s'.handles|
    requires s'.handles == s.handles[h := s'.handles[h]]
    requires s'.dropped == s.dropped && s'.freed == s.freed && s'.aborted == s.aborted
    requires s'.events == s.events + 1 && s'.touched == s.touched && s'.writes == s.writes
    ensures ViewOf(s') == Turn(Act(ViewOf(s), t, s'.threads[t].pc), h, RefOf(s'.handles[h]))
  {
    SidesMove(s.threads, t, s'.threads[t]);
    RefsChange(s.handles, h, s'.handles[h]);
  }

  lemma MoveConforms(s: State, s': State, t: nat)
    requires OneThread(s, s', t) && s'.threads[t].shared == s.threads[t].shared
    requires s'.events == s.events && s'.touched == s.touched && s'.writes == s.writes && s'.dropped == s.dropped
    requires s'.freed == s.freed && s'.aborted == s.aborted && RefsOf(s'.handles) == RefsOf(s.handles)
    ensures ViewOf(s') == Move(ViewOf(s), t, s'.threads[t].pc)
  {
    SidesMove(s.threads, t, s'.threads[t]);
  }

  lemma CreateConforms(s: State, t: nat, kind: Kind, pc: Pc)
    requires t < |s.threads| && s.alloc != [] && LastAlloc(s).value == Keepers(ViewOf(s))
    ensures ViewOf(WeakCloneStep(s, t, kind, pc)) == Create(ViewOf(s), t, kind, pc)
  {
    var s' := WeakCloneStep(s, t, kind, pc);
    SidesMove(s.threads, t, s'.threads[t]);
    RefsGrow(s.handles, s'.handles[|s.handles|]);
  }

  lemma CloneConforms(s: State, t: nat, h: nat)
    requires t < |s.threads| && s.alloc != [] && LastAlloc(s).value == Keepers(ViewOf(s))
    ensures ViewOf(CloneStep(s, t, h)) == SpecShared(ViewOf(s), t, Clone(h))
  {
    Guards(s, h);
    CreateConforms(s, t, Half, Cloning(h, |s.handles|));
    assert ViewOf(s).sides[t] == SideOf(s.threads[t]) && |ViewOf(s).refs| == |s.handles|;
  }

  lemma NewWeakConforms(s: State, t: nat, h: nat)
    requires t < |s.threads| && s.alloc != [] && LastAlloc(s).value == Keepers(ViewOf(s))
    ensures ViewOf(NewWeakStep(s, t, h)) == SpecShared(ViewOf(s), t, NewWeak(h))
  {
    CreateConforms(s, t, Weak, Calm);
    assert ViewOf(s).sides[t] == SideOf(s.threads[t]);
  }

  lemma CalmConforms(s: State, t: nat, act: Action)
    requires t < |s.threads| && BorrowsOk(s, t) && s.alloc != [] && LastAlloc(s).value == Keepers(ViewOf(s))
    ensures ViewOf(CalmStep(s, t, act)) == SpecCalm(ViewOf(s), t, act)
  {
    match act
    case BeginShared(h) => BeginSharedConforms(s, t, h);
    case EndShared(h) => EndSharedConforms(s, t, h);
    case Read(h) => ReadConforms(s, t, h);
    case Clone(h) => CloneConforms(s, t, h);
    case NewWeak(h) => NewWeakConforms(s, t, h);
    case Write | EndMut | Exchange | Continue(_) =>
    case _ => BeginConforms(s, t, act);
  }

  lemma UpLoadConforms(s: State, t: nat, h: nat, i: nat)
    requires t < |s.threads| && s.threads[t].clock.data <= i < |s.data|
    ensures ViewOf(UpLoadStep(s, t, h, i)) == Act(ViewOf(s), t, UpDecide(h, s.data[i].value))
  {
    ActConforms(s, UpLoadStep(s, t, h, i), t);
  }

  lemma UpExchangeConforms(s: State, t: nat, h: nat, n: nat)
    requires t < |s.threads| && s.data != [] && LastData(s).value == Strong(ViewOf(s))
    ensures var v := ViewOf(s);
      ViewOf(UpExchange(s, t, h, n)) == if Strong(v) == n then Act(v, t, UpAlloc(h)) else v
  {
    if LastData(s).value == n { ActConforms(s, UpExchange(s, t, h, n), t); }
  }

  lemma CloneDataConforms(s: State, a: A.State, t: nat, h: nat, g: nat)
    requires Inv(s, a) && !s.aborted && t < |s.threads| && s.threads[t].pc == Cloning(h, g)
    ensures ViewOf(CloneDataStep(s, t, g)) == SpecThrough(ViewOf(s), t, Continue(0), Nothing)
  {
    Numbers(s, a);
    assert BorrowsOk(s, t) && ViewOf(s).sides[t] == SideOf(s.threads[t]) && ViewOf(s).refs[g] == RefOf(s.handles[g]);
    TurnConforms(s, CloneDataStep(s, t, g), t, g);
  }

  lemma UpgradeConforms(s: State, t: nat, act: Action)
    requires !s.aborted && t < |s.threads| && (s.threads[t].pc.UpLoad? || s.threads[t].pc.UpCas?)
    requires s.data != [] && s.alloc != [] && LastData(s).value == Strong(ViewOf(s))
    ensures ViewOf(Step(s, t, act)) == SpecThrough(ViewOf(s), t, act, Seen(s, t, act))
  {
    var h := s.threads[t].pc.h;
    assert ViewOf(s).sides[t] == SideOf(s.threads[t]);
    if act.Continue? {
      if Seen(s, t, act).Value? { UpLoadConforms(s, t, h, act.i); }
      assert Step(s, t, act) == UpLoadStep(s, t, h, act.i);
    } else if act.Exchange? && s.threads[t].pc.UpCas? {
      UpExchangeConforms(s, t, h, s.threads[t].pc.n);
      assert Step(s, t, act) == UpExchange(s, t, h, s.threads[t].pc.n);
    }
  }

  lemma SecondHalfConforms(s: State, a: A.State, t: nat, act: Action)
    requires Inv(s, a) && !s.aborted && t < |s.threads| && (s.threads[t].pc.Cloning? || s.threads[t].pc.UpAlloc?)
    ensures ViewOf(Step(s, t, act)) == SpecThrough(ViewOf(s), t, act, Seen(s, t, act))
  {
    assert ViewOf(s).sides[t] == SideOf(s.threads[t]);
    if s.threads[t].pc.UpAlloc? {
      Numbers(s, a);
      CreateConforms(s, t, Arc, Calm);
      assert Step(s, t, act) == WeakCloneStep(s, t, Arc, Calm);
    } else {
      CloneDataConforms(s, a, t, s.threads[t].pc.h, s.threads[t].pc.g);
      assert Step(s, t, act) == CloneDataStep(s, t, s.threads[t].pc.g);
    }
  }

  lemma DropConforms(s: State, a: A.State, t: nat, h: nat)
    requires Inv(s, a) && t < |s.threads| && s.threads[t].pc == Dropping(h)
    ensures ViewOf(DropStep(s, t, h)) == SpecDrop(ViewOf(s), t)
  {
    Numbers(s, a);
    assert BorrowsOk(s, t) && ViewOf(s).sides[t] == SideOf(s.threads[t]) && ViewOf(s).refs[h] == RefOf(s.handles[h]);
    TurnConforms(s, DropStep(s, t, h), t, h);
  }

  lemma DropAllocConforms(s: State, a: A.State, t: nat, h: nat)
    requires Inv(s, a) && t < |s.threads| && s.threads[t].pc == DropAlloc(h)
    ensures ViewOf(DropAllocStep(s, t, h)) == SpecDrop(ViewOf(s), t)
  {
    Numbers(s, a);
    assert BorrowsOk(s, t) && ViewOf(s).sides[t] == SideOf(s.threads[t]) && ViewOf(s).refs[h] == RefOf(s.handles[h]);
    TurnConforms(s, DropAllocStep(s, t, h), t, h);
  }

  lemma EndsConform(s: State, t: nat, h: nat, pc: Pc)
    requires t < |s.threads|
    ensures ViewOf(FenceStep(s, t, pc)) == Move(ViewOf(s), t, pc)
    ensures ViewOf(DropTStep(s, t, h)) == Act(ViewOf(s), t, DropAlloc(h)).(dropped := s.dropped + 1)
    ensures ViewOf(FreeStep(s, t)) == Move(ViewOf(s), t, Calm).(freed := s.freed + 1)
  {
    MoveConforms(s, FenceStep(s, t, pc), t);
    ActConforms(s, DropTStep(s, t, h).(dropped := s.dropped), t);
    MoveConforms(s, FreeStep(s, t).(freed := s.freed), t);
  }

  lemma DropsConform(s: State, a: A.State, t: nat, act: Action)
    requires Inv(s, a) && !s.aborted && t < |s.threads| && (s.threads[t].pc.Dropping? || s.threads[t].pc.DropAlloc?)
    ensures ViewOf(Step(s, t, act)) == SpecStep(ViewOf(s), t, act, Seen(s, t, act))
  {
    var h := s.threads[t].pc.h;
    assert ViewOf(s).sides[t] == SideOf(s.threads[t]);
    if s.threads[t].pc.Dropping? {
      DropConforms(s, a, t, h);
      assert Step(s, t, act) == DropStep(s, t, h);
    } else {
      DropAllocConforms(s, a, t, h);
      assert Step(s, t, act) == DropAllocStep(s, t, h);
    }
  }

  lemma EndOfDropConforms(s: State, t: nat, act: Action)
    requires !s.aborted && s.data != [] && s.alloc != [] && t < |s.threads|
    requires s.threads[t].pc.DropFence? || s.threads[t].pc.DropT?
    ensures ViewOf(Step(s, t, act)) == SpecStep(ViewOf(s), t, act, Seen(s, t, act))
  {
    assert ViewOf(s).sides[t] == SideOf(s.threads[t]);
    var h := s.threads[t].pc.h;
    EndsConform(s, t, h, DropT(h));
    assert Step(s, t, act) == if s.threads[t].pc.DropT? then DropTStep(s, t, h) else FenceStep(s, t, DropT(h));
  }

  lemma FreeingConforms(s: State, t: nat, act: Action)
    requires !s.aborted && s.data != [] && s.alloc != [] && t < |s.threads|
    requires s.threads[t].pc.FreeFence? || s.threads[t].pc.Freeing?
    ensures ViewOf(Step(s, t, act)) == SpecStep(ViewOf(s), t, act, Seen(s, t, act))
  {
    assert ViewOf(s).sides[t] == SideOf(s.threads[t]);
    EndsConform(s, t, 0, Freeing);
    assert Step(s, t, act) == if s.threads[t].pc.Freeing? then FreeStep(s, t) else FenceStep(s, t, Freeing);
  }

  lemma EndOwnConforms(s: State, t: nat, h: nat)
    requires t < |s.threads| && h < |s.handles|
    ensures ViewOf(EndOwn(s, t, h)) == Move(ViewOf(s), t, Calm)
  {
    var s' := EndOwn(s, t, h);
    RefsChange(s.handles, h, s'.handles[h]);
    assert RefsOf(s'.handles) == RefsOf(s.handles);
    MoveConforms(s, s', t);
  }

  lemma GmLoadConforms(s: State, t: nat, h: nat, i: nat)
    requires t < |s.threads| && h < |s.handles| && s.threads[t].clock.alloc <= i < |s.alloc|
    ensures ViewOf(GmLoadStep(s, t, h, i)) == Act(ViewOf(s), t, if s.alloc[i].value == 1 then GmFence(h) else Calm)
  {
    var s1 := LoadAlloc(Touch(s, t), t, i);
    ActConforms(s, s1, t);
    if s.alloc[i].value == 1 { MoveConforms(s1, Goto(s1, t, GmFence(h)), t); } else { EndOwnConforms(s1, t, h); }
  }

  lemma WriteConforms(s: State, t: nat)
    requires t < |s.threads|
    ensures ViewOf(WriteStep(s, t)) == ViewOf(s).(events := s.events + 1, touched := s.touched + {s.events},
                                                  writes := s.writes + {s.events})
  {
    SidesMove(s.threads, t, WriteStep(s, t).threads[t]);
    assert SidesOf(WriteStep(s, t).threads) == SidesOf(s.threads);
  }

  lemma LoadConforms(s: State, t: nat, act: Action)
    requires !s.aborted && s.data != [] && s.alloc != [] && t < |s.threads| && s.threads[t].pc.GmLoad?
    requires s.threads[t].pc.h < |s.handles|
    ensures ViewOf(Step(s, t, act)) == SpecStep(ViewOf(s), t, act, Seen(s, t, act))
  {
    assert ViewOf(s).sides[t] == SideOf(s.threads[t]);
    var h := s.threads[t].pc.h;
    if Seen(s, t, act).Value? { GmLoadConforms(s, t, h, act.i); }
    assert Step(s, t, act) == if act.Continue? then GmLoadStep(s, t, h, act.i) else s;
  }

  lemma GrantConforms(s: State, t: nat, act: Action)
    requires !s.aborted && s.data != [] && s.alloc != [] && t < |s.threads|
    requires (s.threads[t].pc.GmFence? || s.threads[t].pc.Mutating?) && s.threads[t].pc.h < |s.handles|
    ensures ViewOf(Step(s, t, act)) == SpecStep(ViewOf(s), t, act, Seen(s, t, act))
  {
    assert ViewOf(s).sides[t] == SideOf(s.threads[t]);
    var h := s.threads[t].pc.h;
    if s.threads[t].pc.GmFence? {
      EndsConform(s, t, h, Mutating(h));
      assert Step(s, t, act) == FenceStep(s, t, Mutating(h));
    } else {
      WriteConforms(s, t);
      EndOwnConforms(s, t, h);
      assert Step(s, t, act) == if act.Write? then WriteStep(s, t) else if act.EndMut? then EndOwn(s, t, h) else s;
    }
  }

  lemma CallsConform(s: State, a: A.State, t: nat, act: Action)
    requires Inv(s, a) && !s.aborted && t < |s.threads|
    requires s.threads[t].pc.Calm? || Through(s.threads[t].pc) || s.threads[t].pc.Aborting?
    ensures ViewOf(Step(s, t, act)) == SpecStep(ViewOf(s), t, act, Seen(s, t, act))
  {
    assert ViewOf(s).sides[t] == SideOf(s.threads[t]);
    if s.threads[t].pc.Calm? {
      Numbers(s, a);
      assert BorrowsOk(s, t);
      CalmConforms(s, t, act);
      assert Step(s, t, act) == CalmStep(s, t, act);
    } else if s.threads[t].pc.Aborting? {
      assert Step(s, t, act) == s.(aborted := true);
    } else if s.threads[t].pc.Cloning? || s.threads[t].pc.UpAlloc? {
      SecondHalfConforms(s, a, t, act);
    } else {
      Numbers(s, a);
      UpgradeConforms(s, t, act);
    }
  }

  lemma StepConforms(s: State, a: A.State, t: nat, act: Action)
    requires Inv(s, a)
    ensures ViewOf(Step(s, t, act)) == SpecStep(ViewOf(s), t, act, Seen(s, t, act))
  {
    if !s.aborted && t < |s.threads| {
      match s.threads[t].pc
      case Dropping(_) | DropAlloc(_) => DropsConform(s, a, t, act);
      case DropFence(_) | DropT(_) => EndOfDropConforms(s, t, act);
      case FreeFence | Freeing => FreeingConforms(s, t, act);
      case GmLoad(_) | GmFence(_) | Mutating(_) =>
        assert BorrowsOk(s, t);
        if s.threads[t].pc.GmLoad? { LoadConforms(s, t, act); } else { GrantConforms(s, t, act); }
      case _ => CallsConform(s, a, t, act);
    }
  }

  /** Every step of every run is the step of the specification on the references that there are. */
  lemma EveryStepConforms(n: nat, sched: seq<(nat, Action)>, t: nat, act: Action)
    requires n <= MAX / 2
    ensures var s := Run(Init(n), sched); ViewOf(Step(s, t, act)) == SpecStep(ViewOf(s), t, act, Seen(s, t, act))
  {
    var image := Reachable(n, sched);
    StepConforms(Run(Init(n), sched), A.Run(A.Init(n), image), t, act);
  }
}
