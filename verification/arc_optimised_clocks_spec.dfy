/**
 What every step of the optimised `Arc` does, said without counters, messages and clocks: a specification
 that counts references instead. It says when an operation goes on, what it creates and what it ends, so that
 every step of the weak memory model is exactly one step of it.
 */
module OptimisedClocksSpec {
  import opened Basics
  import opened References
  import opened Sums
  import opened Usize
  import opened OptimisedClocks
  import opened OptimisedClocksInv
  import opened OptimisedClocksRuns
  import opened OptimisedClocksTheorems

  datatype Ref = Ref(kind: Kind, status: Status)
  datatype Side = Side(pc: Pc, shared: set<nat>)

  datatype View = View(refs: seq<Ref>, sides: seq<Side>, dropped: nat, freed: nat, aborted: bool,
                       events: nat, touched: set<nat>, writes: set<nat>)

  /** The value that a load returns, if it returns one. */
  datatype Load = Nothing | Value(n: nat)

  // ----- The specification -----

  function ArcRef(x: Ref): nat {
    if x.kind == Arc && x.status != Gone then 1 else 0
  }

  function WeakRef(x: Ref): nat {
    if x.kind == Weak && x.status != Gone then 1 else 0
  }

  function ArcRefs(v: View): nat {
    Sum(v.refs, ArcRef)
  }

  function WeakRefs(v: View): nat {
    Sum(v.refs, WeakRef)
  }

  predicate SomeoneLocks(v: View) {
    exists u | 0 <= u < |v.sides| :: Locking(v.sides[u].pc)
  }

  predicate SomeoneEndsT(v: View) {
    exists u | 0 <= u < |v.sides| :: Lasting(v.sides[u].pc)
  }

  /** What keeps the block: every `Weak`, and one reference for all `Arc`s, which the last dropper still has. */
  function Keepers(v: View): nat {
    WeakRefs(v) + One(ArcRefs(v) > 0 || SomeoneEndsT(v))
  }

  predicate Lives(v: View, h: nat, kind: Kind) {
    h < |v.refs| && v.refs[h] == Ref(kind, Live)
  }

  predicate Unowned(v: View, h: nat) {
    forall u | 0 <= u < |v.sides| :: !Owns(v.sides[u].pc, h)
  }

  predicate Unused(v: View, h: nat) {
    Unowned(v, h) && forall u | 0 <= u < |v.sides| :: h !in v.sides[u].shared
  }

  function Move(v: View, t: nat, pc: Pc): View
    requires t < |v.sides|
  {
    v.(sides := v.sides[t := v.sides[t].(pc := pc)])
  }

  /** The same with an access to the block. */
  function Act(v: View, t: nat, pc: Pc): View
    requires t < |v.sides|
  {
    Move(v, t, pc).(events := v.events + 1)
  }

  /** A new reference beside `count` others; beyond the limit the process is about to abort. */
  function Create(v: View, t: nat, kind: Kind, count: nat): View
    requires t < |v.sides|
  {
    if count > MAX / 2 then Act(v, t, Aborting).(refs := v.refs + [Ref(kind, Doomed)])
    else Act(v, t, Calm).(refs := v.refs + [Ref(kind, Live)])
  }

  function End(v: View, h: nat): View
    requires h < |v.refs|
  {
    v.(refs := v.refs[h := v.refs[h].(status := Gone)])
  }

  function SpecShared(v: View, t: nat, a: Action): View
    requires t < |v.sides|
  {
    var shared := v.sides[t].shared;
    match a
    case BeginShared(h) =>
      if h < |v.refs| && v.refs[h].status == Live && Unowned(v, h)
      then v.(sides := v.sides[t := v.sides[t].(shared := shared + {h})]) else v
    case EndShared(h) => if h in shared then v.(sides := v.sides[t := v.sides[t].(shared := shared - {h})]) else v
    case Read(h) =>
      if h in shared && Lives(v, h, Arc) then v.(events := v.events + 1, touched := v.touched + {v.events}) else v
    case Clone(h) => if h in shared && Lives(v, h, Arc) then Create(v, t, Arc, ArcRefs(v)) else v
    case CloneWeak(h) => if h in shared && Lives(v, h, Weak) then Create(v, t, Weak, Keepers(v)) else v
    case BeginUpgrade(h) => if h in shared && Lives(v, h, Weak) then Move(v, t, UpLoad(h)) else v
    case BeginDowngrade(h) => if h in shared && Lives(v, h, Arc) then Move(v, t, DownLoad(h)) else v
    case _ => v
  }

  function SpecCalm(v: View, t: nat, a: Action): View
    requires t < |v.sides|
  {
    match a
    case BeginDrop(h) => if Lives(v, h, Arc) && Unused(v, h) then Move(v, t, Dropping(h)) else v
    case BeginDropWeak(h) => if Lives(v, h, Weak) && Unused(v, h) then Move(v, t, WeakDropping(h)) else v
    case BeginGetMut(h) => if Lives(v, h, Arc) && Unused(v, h) then Move(v, t, GmCas(h)) else v
    case _ => SpecShared(v, t, a)
  }

  /** Upgrade succeeds if it has read the number of `Arc`s; downgrade if it has read what keeps the block. */
  function SpecThrough(v: View, t: nat, a: Action, seen: Load): View
    requires t < |v.sides|
  {
    match v.sides[t].pc
    case UpLoad(h) => if seen.Value? then Act(v, t, if seen.n == 0 then Calm else UpCas(h, seen.n)) else v
    case UpCas(h, n) =>
      if a.Exchange? then
        (if ArcRefs(v) == n then Act(v, t, Calm).(refs := v.refs + [Ref(Arc, Live)]) else v)
      else if seen.Value? then Act(v, t, if seen.n == 0 then Calm else UpCas(h, seen.n)) else v
    case DownLoad(h) => if seen.Value? then Act(v, t, if seen.n == MAX then DownLoad(h) else DownCas(h, seen.n)) else v
    case DownCas(h, n) =>
      if a.Exchange? then
        (if !SomeoneLocks(v) && Keepers(v) == n then Act(v, t, Calm).(refs := v.refs + [Ref(Weak, Live)]) else v)
      else if seen.Value? then Act(v, t, if seen.n == MAX then DownLoad(h) else DownCas(h, seen.n)) else v
    case _ => v
  }

  /** The last `Arc` ends T, and the last keeper the block. */
  function SpecDrop(v: View, t: nat): View
    requires t < |v.sides|
  {
    var free := if Keepers(v) == 1 then FreeFence else Calm;
    match v.sides[t].pc
    case Dropping(h) => if h < |v.refs| then End(Act(v, t, if ArcRefs(v) == 1 then DropFence else Calm), h) else v
    case DropFence => Move(v, t, DropT)
    case DropT => Act(v, t, DropImplicit).(dropped := v.dropped + 1)
    case DropImplicit => Act(v, t, free)
    case WeakDropping(h) => if h < |v.refs| then End(Act(v, t, free), h) else v
    case FreeFence => Move(v, t, Freeing)
    case Freeing => Move(v, t, Calm).(freed := v.freed + 1)
    case _ => v
  }

  /** get_mut locks if nothing but the `Arc`s keeps the block, and goes on to Some if it then reads 1. */
  function SpecGetMut(v: View, t: nat, a: Action, seen: Load): View
    requires t < |v.sides|
  {
    match v.sides[t].pc
    case GmCas(h) =>
      if a.Exchange? then (if !SomeoneLocks(v) && Keepers(v) == 1 then Act(v, t, GmLoad(h)) else v)
      else if seen.Value? && seen.n != 1 then Act(v, t, Calm) else v
    case GmLoad(h) => if seen.Value? then Act(v, t, GmStore(h, seen.n == 1)) else v
    case GmStore(h, unique) => Act(v, t, if unique then GmFence(h) else Calm)
    case GmFence(h) => Move(v, t, Mutating(h))
    case Mutating(h) =>
      if a.Write? then
        v.(events := v.events + 1, touched := v.touched + {v.events}, writes := v.writes + {v.events})
      else if a.EndMut? then Move(v, t, Calm) else v
    case _ => v
  }

  function SpecStep(v: View, t: nat, a: Action, seen: Load): View {
    if v.aborted || t >= |v.sides| then v else
    match v.sides[t].pc
    case Calm => SpecCalm(v, t, a)
    case UpLoad(_) | UpCas(_, _) | DownLoad(_) | DownCas(_, _) => SpecThrough(v, t, a, seen)
    case GmCas(_) | GmLoad(_) | GmStore(_, _) | GmFence(_) | Mutating(_) => SpecGetMut(v, t, a, seen)
    case Aborting => v.(aborted := true)
    case _ => SpecDrop(v, t)
  }

  // ----- Seeing the weak memory model as the specification -----

  function RefOf(x: Handle): Ref {
    Ref(x.kind, x.status)
  }

  function SideOf(th: Thread): Side {
    Side(th.pc, th.shared)
  }

  function RefsOf(handles: seq<Handle>): (refs: seq<Ref>)
    ensures |refs| == |handles| && forall h | 0 <= h < |refs| :: refs[h] == RefOf(handles[h])
  {
    seq(|handles|, h requires 0 <= h < |handles| => RefOf(handles[h]))
  }

  function SidesOf(threads: seq<Thread>): (sides: seq<Side>)
    ensures |sides| == |threads| && forall t | 0 <= t < |sides| :: sides[t] == SideOf(threads[t])
  {
    seq(|threads|, t requires 0 <= t < |threads| => SideOf(threads[t]))
  }

  function ViewOf(s: State): View {
    View(RefsOf(s.handles), SidesOf(s.threads), s.dropped, s.freed, s.aborted, s.events, s.touched, s.writes)
  }

  /** What the load of message `i` by thread `t` returns. */
  function Seen(s: State, t: nat, a: Action): Load {
    if t >= |s.threads| || !a.Continue? then Nothing else
    match s.threads[t].pc
    case UpLoad(_) | UpCas(_, _) | GmLoad(_) =>
      if s.threads[t].clock.data <= a.i < |s.data| then Value(s.data[a.i].value) else Nothing
    case DownLoad(_) | DownCas(_, _) | GmCas(_) =>
      if s.threads[t].clock.alloc <= a.i < |s.alloc| then Value(s.alloc[a.i].value) else Nothing
    case _ => Nothing
  }

  lemma {:induction false} SameCount(handles: seq<Handle>)
    ensures Sum(RefsOf(handles), ArcRef) == Sum(handles, ArcShare)
    ensures Sum(RefsOf(handles), WeakRef) == Sum(handles, WeakShare)
  {
    if handles == [] {
    } else {
      assert RefsOf(handles)[1..] == RefsOf(handles[1..]);
      SameCount(handles[1..]);
    }
  }

  /** The counters hold the numbers of references. */
  lemma Numbers(s: State)
    requires Inv(s)
    ensures var v := ViewOf(s);
      && ArcRefs(v) == Arcs(s) == LastData(s).value && WeakRefs(v) == Weaks(s)
      && (SomeoneLocks(v) <==> s.locker.By?) && (SomeoneEndsT(v) <==> s.last.By?)
      && LastAlloc(s).value == if SomeoneLocks(v) then MAX else Keepers(v)
  {
    SameCount(s.handles);
    var v := ViewOf(s);
    forall u: nat | u < |s.threads|
      ensures Locking(v.sides[u].pc) <==> s.locker == By(u)
      ensures Lasting(v.sides[u].pc) <==> s.last == By(u)
    {
      assert ThreadOk(s, u);
    }
  }

  lemma SidesMove(threads: seq<Thread>, t: nat, th: Thread)
    requires t < |threads|
    ensures SidesOf(threads[t := th]) == SidesOf(threads)[t := SideOf(th)]
  {
  }

  lemma RefsChange(handles: seq<Handle>, h: nat, x: Handle)
    requires h < |handles|
    ensures RefsOf(handles[h := x]) == RefsOf(handles)[h := RefOf(x)]
  {
  }

  lemma RefsGrow(handles: seq<Handle>, x: Handle)
    ensures RefsOf(handles + [x]) == RefsOf(handles) + [RefOf(x)]
  {
  }

  /** The guards of the weak memory model are those of the specification. */
  lemma Guards(s: State, h: nat)
    ensures var v := ViewOf(s);
      && (forall kind: Kind :: IsLive(s, h, kind) <==> Lives(v, h, kind))
      && (CanShare(s, h) <==> h < |v.refs| && v.refs[h].status == Live && Unowned(v, h))
      && (forall kind: Kind :: CanOwn(s, h, kind) <==> Lives(v, h, kind) && Unused(v, h))
  {
    var v := ViewOf(s);
    assert h < |s.handles| ==> v.refs[h] == RefOf(s.handles[h]);
    forall u | 0 <= u < |s.threads|
      ensures Owns(v.sides[u].pc, h) <==> Owns(s.threads[u].pc, h)
      ensures h in v.sides[u].shared <==> h in s.threads[u].shared
    {
      assert v.sides[u] == SideOf(s.threads[u]);
    }
  }

  // ----- Every step is a step of the specification -----

  lemma BeginSharedConforms(s: State, t: nat, h: nat)
    requires t < |s.threads|
    ensures ViewOf(BeginSharedStep(s, t, h)) == SpecShared(ViewOf(s), t, BeginShared(h))
  {
    Guards(s, h);
    if CanShare(s, h) { SidesMove(s.threads, t, BeginSharedStep(s, t, h).threads[t]); }
  }

  lemma EndSharedConforms(s: State, t: nat, h: nat)
    requires t < |s.threads| && (h in s.threads[t].shared ==> h < |s.handles|)
    ensures ViewOf(EndSharedStep(s, t, h)) == SpecShared(ViewOf(s), t, EndShared(h))
  {
    if h in s.threads[t].shared {
      var s' := EndSharedStep(s, t, h);
      SidesMove(s.threads, t, s'.threads[t]);
      RefsChange(s.handles, h, s'.handles[h]);
      assert RefsOf(s'.handles) == RefsOf(s.handles);
    }
  }

  lemma ReadConforms(s: State, t: nat, h: nat)
    requires t < |s.threads|
    ensures ViewOf(ReadStep(s, t, h)) == SpecShared(ViewOf(s), t, Read(h))
  {
    Guards(s, h);
    SidesMove(s.threads, t, Touch(s, t).threads[t]);
    assert SidesOf(Touch(s, t).threads) == SidesOf(s.threads);
  }

  lemma BeginConforms(s: State, t: nat, a: Action)
    requires t < |s.threads| && s.data != [] && s.alloc != []
    requires a.BeginUpgrade? || a.BeginDowngrade? || a.BeginDrop? || a.BeginDropWeak? || a.BeginGetMut?
    ensures ViewOf(CalmStep(s, t, a)) == SpecCalm(ViewOf(s), t, a)
  {
    Guards(s, a.h);
    BeginsAre(s, t, a);
    SidesMove(s.threads, t, CalmStep(s, t, a).threads[t]);
  }

  /** One more thread step with an access, and the handles as they were. */
  lemma ActConforms(s: State, s': State, t: nat)
    requires OneThread(s, s', t) && s'.threads[t].shared == s.threads[t].shared && s'.handles == s.handles
    requires s'.dropped == s.dropped && s'.freed == s.freed && s'.aborted == s.aborted
    requires s'.events == s.events + 1 && s'.touched == s.touched && s'.writes == s.writes
    ensures ViewOf(s') == Act(ViewOf(s), t, s'.threads[t].pc)
  {
    SidesMove(s.threads, t, s'.threads[t]);
  }

  lemma CreateConforms(s: State, s': State, t: nat, x: Handle)
    requires OneThread(s, s', t) && s'.threads[t].shared == s.threads[t].shared && s'.handles == s.handles + [x]
    requires s'.dropped == s.dropped && s'.freed == s.freed && s'.aborted == s.aborted
    requires s'.events == s.events + 1 && s'.touched == s.touched && s'.writes == s.writes
    ensures ViewOf(s') == Act(ViewOf(s), t, s'.threads[t].pc).(refs := RefsOf(s.handles) + [RefOf(x)])
  {
    SidesMove(s.threads, t, s'.threads[t]);
    RefsGrow(s.handles, x);
  }

  lemma CloneConforms(s: State, t: nat, h: nat)
    requires Inv(s) && t < |s.threads|
    ensures ViewOf(CloneStep(s, t, h)) == SpecShared(ViewOf(s), t, Clone(h))
  {
    Guards(s, h);
    if h in s.threads[t].shared && IsLive(s, h, Arc) {
      Numbers(s);
      var s' := CloneStep(s, t, h);
      CreateConforms(s, s', t, s'.handles[|s.handles|]);
    }
  }

  lemma WeakIsCounted(s: State, t: nat, h: nat)
    requires Inv(s) && t < |s.threads| && h in s.threads[t].shared && IsLive(s, h, Weak)
    ensures LastAlloc(s).value == Keepers(ViewOf(s))
  {
    assert Uses(s.threads[t], h);
    LiveIsCounted(s, t, h);
    Numbers(s);
  }

  lemma CloneWeakConforms(s: State, t: nat, h: nat)
    requires Inv(s) && t < |s.threads|
    ensures ViewOf(CloneWeakStep(s, t, h)) == SpecShared(ViewOf(s), t, CloneWeak(h))
  {
    Guards(s, h);
    if h in s.threads[t].shared && IsLive(s, h, Weak) {
      WeakIsCounted(s, t, h);
      var s' := CloneWeakStep(s, t, h);
      CreateConforms(s, s', t, s'.handles[|s.handles|]);
    }
  }

  lemma CalmConforms(s: State, t: nat, a: Action)
    requires Inv(s) && t < |s.threads|
    ensures ViewOf(CalmStep(s, t, a)) == SpecCalm(ViewOf(s), t, a)
  {
    match a
    case BeginShared(h) => BeginSharedConforms(s, t, h);
    case EndShared(h) =>
      assert ThreadOk(s, t);
      assert h in s.threads[t].shared ==> SharedOk(s, t, h);
      EndSharedConforms(s, t, h);
    case Read(h) => ReadConforms(s, t, h);
    case Clone(h) => CloneConforms(s, t, h);
    case CloneWeak(h) => CloneWeakConforms(s, t, h);
    case Write | EndMut | Exchange | Continue(_) =>
    case _ => BeginConforms(s, t, a);
  }

  lemma LoadsConform(s: State, t: nat, h: nat, i: nat, v: View)
    requires t < |s.threads| && v == ViewOf(s)
    ensures s.threads[t].clock.data <= i < |s.data| ==>
      ViewOf(UpLoadStep(s, t, h, i)) == Act(v, t, UpDecide(h, s.data[i].value))
    ensures s.threads[t].clock.alloc <= i < |s.alloc| ==>
      ViewOf(DownLoadStep(s, t, h, i)) == Act(v, t, DownDecide(h, s.alloc[i].value))
  {
    if s.threads[t].clock.data <= i < |s.data| { ActConforms(s, UpLoadStep(s, t, h, i), t); }
    if s.threads[t].clock.alloc <= i < |s.alloc| { ActConforms(s, DownLoadStep(s, t, h, i), t); }
  }

  lemma UpExchangeConforms(s: State, t: nat, n: nat, v: View)
    requires Inv(s) && t < |s.threads| && v == ViewOf(s)
    ensures ViewOf(UpExchange(s, t, n))
         == if ArcRefs(v) == n then Act(v, t, Calm).(refs := v.refs + [Ref(Arc, Live)]) else v
  {
    Numbers(s);
    if LastData(s).value == n {
      var s' := UpExchange(s, t, n);
      CreateConforms(s, s', t, s'.handles[|s.handles|]);
    }
  }

  lemma DownExchangeConforms(s: State, t: nat, n: nat, v: View)
    requires Inv(s) && t < |s.threads| && v == ViewOf(s) && n != MAX
    ensures ViewOf(DownExchange(s, t, n))
         == if !SomeoneLocks(v) && Keepers(v) == n then Act(v, t, Calm).(refs := v.refs + [Ref(Weak, Live)]) else v
  {
    Numbers(s);
    if LastAlloc(s).value == n {
      var s' := DownExchange(s, t, n);
      CreateConforms(s, s', t, s'.handles[|s.handles|]);
    }
  }

  lemma UpgradingConforms(s: State, t: nat, a: Action)
    requires Inv(s) && !s.aborted && t < |s.threads| && (s.threads[t].pc.UpLoad? || s.threads[t].pc.UpCas?)
    ensures ViewOf(Step(s, t, a)) == SpecThrough(ViewOf(s), t, a, Seen(s, t, a))
  {
    var v := ViewOf(s);
    var h := s.threads[t].pc.h;
    assert v.sides[t] == SideOf(s.threads[t]);
    if a.Continue? {
      LoadsConform(s, t, h, a.i, v);
      assert Step(s, t, a) == UpLoadStep(s, t, h, a.i);
    } else if a.Exchange? && s.threads[t].pc.UpCas? {
      UpExchangeConforms(s, t, s.threads[t].pc.n, v);
      assert Step(s, t, a) == UpExchange(s, t, s.threads[t].pc.n);
    }
  }

  lemma DowngradingConforms(s: State, t: nat, a: Action)
    requires Inv(s) && !s.aborted && t < |s.threads| && (s.threads[t].pc.DownLoad? || s.threads[t].pc.DownCas?)
    ensures ViewOf(Step(s, t, a)) == SpecThrough(ViewOf(s), t, a, Seen(s, t, a))
  {
    var v := ViewOf(s);
    var h := s.threads[t].pc.h;
    assert ThreadOk(s, t) && v.sides[t] == SideOf(s.threads[t]);
    if a.Continue? {
      LoadsConform(s, t, h, a.i, v);
      assert Step(s, t, a) == DownLoadStep(s, t, h, a.i);
    } else if a.Exchange? && s.threads[t].pc.DownCas? {
      DownExchangeConforms(s, t, s.threads[t].pc.n, v);
      assert Step(s, t, a) == DownExchange(s, t, s.threads[t].pc.n);
    }
  }

  /** An access that ends handle `h`. */
  lemma EndConforms(s: State, s': State, t: nat, h: nat)
    requires OneThread(s, s', t) && s'.threads[t].shared == s.threads[t].shared && h < |s.handles|
    requires s'.handles == s.handles[h := s.handles[h].(status := Gone)]
    requires s'.dropped == s.dropped && s'.freed == s.freed && s'.aborted == s.aborted
    requires s'.events == s.events + 1 && s'.touched == s.touched && s'.writes == s.writes
    ensures ViewOf(s') == End(Act(ViewOf(s), t, s'.threads[t].pc), h)
  {
    SidesMove(s.threads, t, s'.threads[t]);
    RefsChange(s.handles, h, s'.handles[h]);
  }

  /** A step without access. */
  lemma MoveConforms(s: State, s': State, t: nat)
    requires OneThread(s, s', t) && s'.threads[t].shared == s.threads[t].shared
    requires s'.events == s.events && s'.touched == s.touched && s'.writes == s.writes && s'.dropped == s.dropped
    requires s'.freed == s.freed && s'.aborted == s.aborted && RefsOf(s'.handles) == RefsOf(s.handles)
    ensures ViewOf(s') == Move(ViewOf(s), t, s'.threads[t].pc)
  {
    SidesMove(s.threads, t, s'.threads[t]);
  }

  /** Nobody locks the second counter while the dropper of a `Weak` or of T is at work. */
  lemma KeepersCounted(s: State, t: nat)
    requires Inv(s) && t < |s.threads| && (s.threads[t].pc.WeakDropping? || s.threads[t].pc.DropImplicit?)
    ensures LastAlloc(s).value == Keepers(ViewOf(s))
  {
    assert ThreadOk(s, t);
    Numbers(s);
    if s.threads[t].pc.WeakDropping? {
      assert Uses(s.threads[t], s.threads[t].pc.h);
      LiveIsCounted(s, t, s.threads[t].pc.h);
    }
  }

  lemma DropConforms(s: State, t: nat, h: nat)
    requires Inv(s) && t < |s.threads| && h < |s.handles|
    ensures ViewOf(DropStep(s, t, h))
         == End(Act(ViewOf(s), t, if ArcRefs(ViewOf(s)) == 1 then DropFence else Calm), h)
  {
    Numbers(s);
    EndConforms(s, DropStep(s, t, h), t, h);
  }

  lemma WeakDropConforms(s: State, t: nat, h: nat)
    requires Inv(s) && t < |s.threads| && s.threads[t].pc == WeakDropping(h) && h < |s.handles|
    ensures ViewOf(WeakDropStep(s, t, h))
         == End(Act(ViewOf(s), t, if Keepers(ViewOf(s)) == 1 then FreeFence else Calm), h)
  {
    KeepersCounted(s, t);
    EndConforms(s, WeakDropStep(s, t, h), t, h);
  }

  lemma ImplicitConforms(s: State, t: nat)
    requires Inv(s) && t < |s.threads| && s.threads[t].pc.DropImplicit?
    ensures ViewOf(LowerAlloc(s, t).(last := Nobody))
         == Act(ViewOf(s), t, if Keepers(ViewOf(s)) == 1 then FreeFence else Calm)
  {
    KeepersCounted(s, t);
    ActConforms(s, LowerAlloc(s, t).(last := Nobody), t);
  }

  lemma EndsConform(s: State, t: nat, pc: Pc)
    requires t < |s.threads|
    ensures ViewOf(FenceStep(s, t, pc)) == Move(ViewOf(s), t, pc)
    ensures ViewOf(DropTStep(s, t)) == Act(ViewOf(s), t, DropImplicit).(dropped := s.dropped + 1)
    ensures ViewOf(FreeStep(s, t)) == Move(ViewOf(s), t, Calm).(freed := s.freed + 1)
  {
    MoveConforms(s, FenceStep(s, t, pc), t);
    ActConforms(s, DropTStep(s, t).(dropped := s.dropped), t);
    MoveConforms(s, FreeStep(s, t).(freed := s.freed), t);
  }

  lemma DroppingConforms(s: State, t: nat, a: Action, h: nat)
    requires Inv(s) && !s.aborted && t < |s.threads| && s.threads[t].pc == Dropping(h)
    ensures ViewOf(Step(s, t, a)) == SpecDrop(ViewOf(s), t)
  {
    assert ThreadOk(s, t) && ViewOf(s).sides[t] == SideOf(s.threads[t]);
    DropConforms(s, t, h);
    assert Step(s, t, a) == DropStep(s, t, h);
  }

  lemma DropImplicitConforms(s: State, t: nat, a: Action)
    requires Inv(s) && !s.aborted && t < |s.threads| && s.threads[t].pc.DropImplicit?
    ensures ViewOf(Step(s, t, a)) == SpecDrop(ViewOf(s), t)
  {
    assert ViewOf(s).sides[t] == SideOf(s.threads[t]);
    ImplicitConforms(s, t);
    DropsAre(s, t, a);
  }

  lemma WeakDroppingConforms(s: State, t: nat, a: Action, h: nat)
    requires Inv(s) && !s.aborted && t < |s.threads| && s.threads[t].pc == WeakDropping(h)
    ensures ViewOf(Step(s, t, a)) == SpecDrop(ViewOf(s), t)
  {
    assert ThreadOk(s, t) && ViewOf(s).sides[t] == SideOf(s.threads[t]);
    WeakDropConforms(s, t, h);
    DropsAre(s, t, a);
  }

  lemma EndingConforms(s: State, t: nat, a: Action)
    requires !s.aborted && s.data != [] && s.alloc != [] && t < |s.threads|
    requires var pc := s.threads[t].pc; pc.DropFence? || pc.DropT? || Ending(pc)
    ensures ViewOf(Step(s, t, a)) == SpecDrop(ViewOf(s), t)
  {
    assert ViewOf(s).sides[t] == SideOf(s.threads[t]);
    match s.threads[t].pc
    case DropFence =>
      EndsConform(s, t, DropT);
      assert Step(s, t, a) == FenceStep(s, t, DropT);
    case DropT =>
      EndsConform(s, t, Calm);
      assert Step(s, t, a) == DropTStep(s, t);
    case FreeFence =>
      EndsConform(s, t, Freeing);
      assert Step(s, t, a) == FenceStep(s, t, Freeing);
    case Freeing =>
      EndsConform(s, t, Calm);
      assert Step(s, t, a) == FreeStep(s, t);
  }

  lemma EndOwnConforms(s: State, t: nat, h: nat)
    requires t < |s.threads| && h < |s.handles|
    ensures ViewOf(EndOwn(s, t, h)) == Move(ViewOf(s), t, Calm)
  {
    var s' := EndOwn(s, t, h);
    RefsChange(s.handles, h, s'.handles[h]);
    assert RefsOf(s'.handles) == RefsOf(s.handles);
    MoveConforms(s, s', t);
  }

  lemma LockConforms(s: State, t: nat, h: nat)
    requires Inv(s) && t < |s.threads|
    ensures var v := ViewOf(s);
      ViewOf(LockStep(s, t, h)) == if !SomeoneLocks(v) && Keepers(v) == 1 then Act(v, t, GmLoad(h)) else v
  {
    Numbers(s);
    if LastAlloc(s).value == 1 { ActConforms(s, LockStep(s, t, h), t); }
  }

  lemma LockFailsConforms(s: State, t: nat, h: nat, i: nat)
    requires t < |s.threads| && h < |s.handles| && s.threads[t].clock.alloc <= i < |s.alloc|
    ensures ViewOf(LockFails(s, t, h, i)) == if s.alloc[i].value != 1 then Act(ViewOf(s), t, Calm) else ViewOf(s)
  {
    if s.alloc[i].value != 1 {
      var s1 := LoadAlloc(Touch(s, t), t, i);
      ActConforms(s, s1, t);
      EndOwnConforms(s1, t, h);
    }
  }

  lemma GmStoreConforms(s: State, t: nat, h: nat, unique: bool)
    requires t < |s.threads| && h < |s.handles|
    ensures ViewOf(GmStoreStep(s, t, h, unique)) == Act(ViewOf(s), t, if unique then GmFence(h) else Calm)
  {
    var s1 := StoreAlloc(Touch(s, t), t);
    ActConforms(s, s1, t);
    if unique { MoveConforms(s1, Goto(s1, t, GmFence(h)), t); } else { EndOwnConforms(s1, t, h); }
  }

  lemma GmLoadConforms(s: State, t: nat, h: nat, i: nat)
    requires t < |s.threads| && s.threads[t].clock.data <= i < |s.data|
    ensures ViewOf(GmLoadStep(s, t, h, i)) == Act(ViewOf(s), t, GmStore(h, s.data[i].value == 1))
  {
    ActConforms(s, GmLoadStep(s, t, h, i), t);
  }

  lemma WriteConforms(s: State, t: nat)
    requires t < |s.threads|
    ensures ViewOf(WriteStep(s, t)) == ViewOf(s).(events := s.events + 1, touched := s.touched + {s.events},
                                                  writes := s.writes + {s.events})
  {
    SidesMove(s.threads, t, WriteStep(s, t).threads[t]);
    assert SidesOf(WriteStep(s, t).threads) == SidesOf(s.threads);
  }

  lemma LockingConforms(s: State, t: nat, a: Action)
    requires Inv(s) && !s.aborted && t < |s.threads| && (s.threads[t].pc.GmCas? || s.threads[t].pc.GmLoad?)
    ensures ViewOf(Step(s, t, a)) == SpecGetMut(ViewOf(s), t, a, Seen(s, t, a))
  {
    assert ThreadOk(s, t) && ViewOf(s).sides[t] == SideOf(s.threads[t]);
    LockingIs(s, t, a);
    match s.threads[t].pc
    case GmCas(h) =>
      if a.Exchange? { LockConforms(s, t, h); }
      else if Seen(s, t, a).Value? { LockFailsConforms(s, t, h, a.i); }
    case GmLoad(h) => if Seen(s, t, a).Value? { GmLoadConforms(s, t, h, a.i); }
  }

  lemma StoringConforms(s: State, t: nat, a: Action, h: nat, unique: bool)
    requires !s.aborted && s.data != [] && s.alloc != [] && t < |s.threads| && s.threads[t].pc == GmStore(h, unique)
    requires h < |s.handles|
    ensures ViewOf(Step(s, t, a)) == SpecGetMut(ViewOf(s), t, a, Seen(s, t, a))
  {
    assert ViewOf(s).sides[t] == SideOf(s.threads[t]);
    GmStoreConforms(s, t, h, unique);
    UnlockingIs(s, t, a);
  }

  lemma FencingConforms(s: State, t: nat, a: Action, h: nat)
    requires !s.aborted && s.data != [] && s.alloc != [] && t < |s.threads| && s.threads[t].pc == GmFence(h)
    ensures ViewOf(Step(s, t, a)) == SpecGetMut(ViewOf(s), t, a, Seen(s, t, a))
  {
    assert ViewOf(s).sides[t] == SideOf(s.threads[t]);
    EndsConform(s, t, Mutating(h));
    UnlockingIs(s, t, a);
  }

  lemma MutatingConforms(s: State, t: nat, a: Action, h: nat)
    requires !s.aborted && s.data != [] && s.alloc != [] && t < |s.threads| && s.threads[t].pc == Mutating(h)
    requires h < |s.handles|
    ensures ViewOf(Step(s, t, a)) == SpecGetMut(ViewOf(s), t, a, Seen(s, t, a))
  {
    assert ViewOf(s).sides[t] == SideOf(s.threads[t]);
    WriteConforms(s, t);
    EndOwnConforms(s, t, h);
    UnlockingIs(s, t, a);
  }

  lemma GetMutConforms(s: State, t: nat, a: Action)
    requires Inv(s) && !s.aborted && t < |s.threads|
    requires var pc := s.threads[t].pc; pc.GmCas? || pc.GmLoad? || pc.GmStore? || pc.GmFence? || pc.Mutating?
    ensures ViewOf(Step(s, t, a)) == SpecStep(ViewOf(s), t, a, Seen(s, t, a))
  {
    assert ThreadOk(s, t) && ViewOf(s).sides[t] == SideOf(s.threads[t]);
    assert SpecStep(ViewOf(s), t, a, Seen(s, t, a)) == SpecGetMut(ViewOf(s), t, a, Seen(s, t, a));
    if s.threads[t].pc.GmCas? || s.threads[t].pc.GmLoad? { LockingConforms(s, t, a); }
    else if s.threads[t].pc.Mutating? { MutatingConforms(s, t, a, s.threads[t].pc.h); }
    else if s.threads[t].pc.GmFence? { FencingConforms(s, t, a, s.threads[t].pc.h); }
    else { StoringConforms(s, t, a, s.threads[t].pc.h, s.threads[t].pc.unique); }
  }

  lemma DropsConform(s: State, t: nat, a: Action)
    requires Inv(s) && !s.aborted && t < |s.threads|
    requires var pc := s.threads[t].pc; pc.Dropping? || pc.WeakDropping? || Lasting(pc) || Ending(pc)
    ensures ViewOf(Step(s, t, a)) == SpecStep(ViewOf(s), t, a, Seen(s, t, a))
  {
    assert ViewOf(s).sides[t] == SideOf(s.threads[t]);
    assert SpecStep(ViewOf(s), t, a, Seen(s, t, a)) == SpecDrop(ViewOf(s), t);
    if s.threads[t].pc.Dropping? { DroppingConforms(s, t, a, s.threads[t].pc.h); }
    else if s.threads[t].pc.WeakDropping? { WeakDroppingConforms(s, t, a, s.threads[t].pc.h); }
    else if s.threads[t].pc.DropImplicit? { DropImplicitConforms(s, t, a); }
    else { EndingConforms(s, t, a); }
  }

  lemma CallsConform(s: State, t: nat, a: Action)
    requires Inv(s) && !s.aborted && t < |s.threads|
    requires s.threads[t].pc.Calm? || Through(s.threads[t].pc) || s.threads[t].pc.Aborting?
    ensures ViewOf(Step(s, t, a)) == SpecStep(ViewOf(s), t, a, Seen(s, t, a))
  {
    assert ViewOf(s).sides[t] == SideOf(s.threads[t]);
    if s.threads[t].pc.Calm? {
      CalmConforms(s, t, a);
      assert Step(s, t, a) == CalmStep(s, t, a);
    } else if s.threads[t].pc.Aborting? {
      assert Step(s, t, a) == s.(aborted := true);
    } else if s.threads[t].pc.UpLoad? || s.threads[t].pc.UpCas? {
      UpgradingConforms(s, t, a);
    } else {
      DowngradingConforms(s, t, a);
    }
  }

  lemma StepConforms(s: State, t: nat, a: Action)
    requires Inv(s)
    ensures ViewOf(Step(s, t, a)) == SpecStep(ViewOf(s), t, a, Seen(s, t, a))
  {
    if !s.aborted && t < |s.threads| {
      var pc := s.threads[t].pc;
      if pc.Calm? || Through(pc) || pc.Aborting? { CallsConform(s, t, a); }
      else if pc.Dropping? || pc.WeakDropping? || Lasting(pc) || Ending(pc) { DropsConform(s, t, a); }
      else { GetMutConforms(s, t, a); }
    }
  }

  /** Every step of every run is the step of the specification on the references that there are. */
  lemma EveryStepConforms(n: nat, sched: seq<(nat, Action)>, t: nat, a: Action)
    requires AlwaysBounded(Init(n), sched)
    ensures var s := Run(Init(n), sched); ViewOf(Step(s, t, a)) == SpecStep(ViewOf(s), t, a, Seen(s, t, a))
  {
    Reachable(n, sched);
    StepConforms(Run(Init(n), sched), t, a);
  }
}
