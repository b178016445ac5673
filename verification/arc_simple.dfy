/**
 The first `Arc` with `Weak`: an `Arc` contains a `Weak`, the first counter counts the `Arc`s and the
 second one all `Arc`s and `Weak`s. Creating, upgrading and dropping an `Arc` change the two counters
 in two separate steps, which other threads see.
 */
module ArcSimple {
  import opened Basics
  import opened Sums
  import opened Usize
  import opened Borrowing

  datatype Pc =
    | Idle
    | Reading(h: nat)               // a `&T` obtained by deref is alive
    | CloneAlloc(h: nat)
    | CloneData(h: nat, i: nat)     // the new handle `i` is counted in the second counter only
    | DownAlloc(h: nat)
    | WeakCloning(h: nat)
    | UpLoad(h: nat)
    | UpCas(h: nat, n: nat)
    | UpAlloc(h: nat, i: nat)       // the new handle `i` is counted in the first counter only
    | GmLoad(h: nat)
    | Mutating(h: nat)              // the `&mut T` returned by get_mut is alive
    | Dropping(h: nat)
    | DropData(i: nat)              // took the first count from 1 to 0, about to drop T
    | DropAlloc(i: nat)             // about to drop the `Weak` inside the dropped `Arc`
    | WeakDropping(h: nat)
    | Freeing
    | Aborting
    | Panicked

  /** `last` names the thread that owes the drop of T, `freer` the one that owes the block. */
  datatype State = State(data: nat, alloc: nat, dropped: nat, freed: nat, bad: bool, aborted: bool,
                         last: Role, freer: Role, handles: seq<Handle>, threads: seq<Pc>)

  /**
   `spurious`: a weak compare-exchange fails although the value matches, or the Relaxed load of get_mut returns
   a stale value. A stale 1 is impossible, so that the latter can only refuse: `SimpleClocksTheorems.GetMutDecides`.
   */
  datatype Choice = Choice(op: Op, h: nat, spurious: bool)

  function LoanOf(pc: Pc): Loan {
    match pc
    case Reading(h) => Shared(h, Arc)
    case CloneAlloc(h) => Shared(h, Arc)
    case CloneData(h, _) => Shared(h, Arc)
    case DownAlloc(h) => Shared(h, Arc)
    case WeakCloning(h) => Shared(h, Weak)
    case UpLoad(h) => Shared(h, Weak)
    case UpCas(h, _) => Shared(h, Weak)
    case UpAlloc(h, _) => Shared(h, Weak)
    case GmLoad(h) => Exclusive(h, Arc)
    case Mutating(h) => Exclusive(h, Arc)
    case Dropping(h) => Exclusive(h, Arc)
    case WeakDropping(h) => Exclusive(h, Weak)
    case _ => NoLoan
  }

  function Loans(threads: seq<Pc>): (loans: seq<Loan>)
    ensures |loans| == |threads|
    ensures forall t | 0 <= t < |threads| :: loans[t] == LoanOf(threads[t])
  {
    seq(|threads|, t requires 0 <= t < |threads| => LoanOf(threads[t]))
  }

  // ----- Steps -----

  function Goto(s: State, t: nat, pc: Pc): State
    requires t < |s.threads|
  {
    s.(threads := s.threads[t := pc])
  }

  function Touch(s: State): State {
    s.(bad := s.bad || s.freed > 0)
  }

  function TouchData(s: State): State {
    s.(bad := s.bad || s.freed > 0 || s.dropped > 0)
  }

  function First(op: Op, h: nat): Pc {
    match op
    case Deref => Reading(h)
    case Clone => CloneAlloc(h)
    case Drop => Dropping(h)
    case Downgrade => DownAlloc(h)
    case GetMut => GmLoad(h)
    case Upgrade => UpLoad(h)
    case CloneWeak => WeakCloning(h)
    case DropWeak => WeakDropping(h)
  }

  function Begin(s: State, t: nat, op: Op, h: nat): State
    requires t < |s.threads|
  {
    var pc := First(op, h);
    if Admits(s.handles, Loans(s.threads), LoanOf(pc)) then Goto(s, t, pc) else s
  }

  /** A new handle appears with the first counter that includes it. */
  function Add(s: State, t: nat, kind: Handle, pc: Pc): State
    requires t < |s.threads|
  {
    s.(handles := s.handles + [kind], threads := s.threads[t := pc])
  }

  function Change(s: State, t: nat, i: nat, kind: Handle, pc: Pc): State
    requires t < |s.threads|
  {
    if i < |s.handles| then s.(handles := s.handles[i := kind], threads := s.threads[t := pc]) else s
  }

  /** `Weak::clone`, called for a clone of a `Weak`, for downgrade and inside `Arc::clone`. */
  function WeakCloneStep(s: State, t: nat, kind: Handle, pc: Pc): State
    requires t < |s.threads|
  {
    var s1 := Touch(s).(alloc := Increment(s.alloc));
    if s.alloc > MAX / 2 then Add(s1, t, Stray(0, 1, t), Aborting) else Add(s1, t, kind, pc)
  }

  function CloneDataStep(s: State, t: nat, i: nat): State
    requires t < |s.threads|
  {
    var s1 := Touch(s).(data := Increment(s.data));
    if s.data > MAX / 2 then Change(s1, t, i, Stray(1, 1, t), Aborting) else Change(s1, t, i, Arc, Idle)
  }

  /** The `Weak::clone` at the end of a successful upgrade. */
  function UpAllocStep(s: State, t: nat, i: nat): State
    requires t < |s.threads|
  {
    var s1 := Touch(s).(alloc := Increment(s.alloc));
    if s.alloc > MAX / 2 then Change(s1, t, i, Stray(1, 1, t), Aborting) else Change(s1, t, i, Arc, Idle)
  }

  function UpDecide(h: nat, n: nat): Pc {
    if n == 0 then Idle else if n < MAX then UpCas(h, n) else Panicked
  }

  function UpCasStep(s: State, t: nat, h: nat, n: nat, spurious: bool): State
    requires t < |s.threads|
  {
    if s.data == n && !spurious then
      Add(Touch(s).(data := n + 1), t, Stray(1, 0, t), UpAlloc(h, |s.handles|))
    else Goto(Touch(s), t, UpDecide(h, s.data))
  }

  function GmLoadStep(s: State, t: nat, h: nat, stale: bool): State
    requires t < |s.threads|
  {
    Goto(Touch(s), t, if s.alloc == 1 && !stale then Mutating(h) else Idle)
  }

  function DropStep(s: State, t: nat, h: nat): State
    requires t < |s.threads|
  {
    var s1 := Touch(s).(data := Decrement(s.data));
    if s.data == 1 then Change(s1, t, h, Stray(0, 1, t), DropData(h)).(last := By(t))
    else Change(s1, t, h, Stray(0, 1, t), DropAlloc(h))
  }

  function DropDataStep(s: State, t: nat, i: nat): State
    requires t < |s.threads|
  {
    Goto(TouchData(s), t, DropAlloc(i)).(dropped := s.dropped + 1, last := Nobody)
  }

  /** `drop` of a `Weak`, also of the one inside an `Arc`. */
  function DropAllocStep(s: State, t: nat, i: nat): State
    requires t < |s.threads|
  {
    var s1 := Touch(s).(alloc := Decrement(s.alloc));
    if s.alloc == 1 then Change(s1, t, i, Gone, Freeing).(freer := By(t)) else Change(s1, t, i, Gone, Idle)
  }

  function Step(s: State, t: nat, c: Choice): State {
    if s.aborted || t >= |s.threads| then s else
    match s.threads[t]
    case Idle => Begin(s, t, c.op, c.h)
    case Reading(_) => Goto(TouchData(s), t, Idle)
    case CloneAlloc(h) => WeakCloneStep(s, t, Stray(0, 1, t), CloneData(h, |s.handles|))
    case CloneData(_, i) => CloneDataStep(s, t, i)
    case DownAlloc(_) => WeakCloneStep(s, t, Weak, Idle)
    case WeakCloning(_) => WeakCloneStep(s, t, Weak, Idle)
    case UpLoad(h) => Goto(Touch(s), t, UpDecide(h, s.data))
    case UpCas(h, n) => UpCasStep(s, t, h, n, c.spurious)
    case UpAlloc(_, i) => UpAllocStep(s, t, i)
    case GmLoad(h) => GmLoadStep(s, t, h, c.spurious)
    case Mutating(_) => Goto(TouchData(s), t, Idle)
    case Dropping(h) => DropStep(s, t, h)
    case DropData(i) => DropDataStep(s, t, i)
    case DropAlloc(i) => DropAllocStep(s, t, i)
    case WeakDropping(h) => DropAllocStep(s, t, h)
    case Freeing => Goto(Touch(s), t, Idle).(freed := s.freed + 1, freer := Nobody)
    case Aborting => s.(aborted := true)
    case Panicked => s
  }

  function Run(s: State, sched: seq<(nat, Choice)>): State
    decreases |sched|
  {
    if sched == [] then s else Run(Step(s, sched[0].0, sched[0].1), sched[1..])
  }

  function Init(n: nat): State {
    State(1, 1, 0, 0, false, false, Nobody, Nobody, [Arc], seq(n, _ => Idle))
  }

  /** A step moves no thread but its own. */
  lemma ThreadsStay(s: State, u: nat, c: Choice)
    ensures |Step(s, u, c).threads| == |s.threads|
    ensures forall t | 0 <= t < |s.threads| && t != u :: Step(s, u, c).threads[t] == s.threads[t]
  {
    if u < |s.threads| && !s.aborted {
      match s.threads[u]
      case Idle => assert Step(s, u, c) == Begin(s, u, c.op, c.h);
      case CloneAlloc(h) => assert Step(s, u, c) == WeakCloneStep(s, u, Stray(0, 1, u), CloneData(h, |s.handles|));
      case CloneData(_, i) => assert Step(s, u, c) == CloneDataStep(s, u, i);
      case UpCas(h, n) => assert Step(s, u, c) == UpCasStep(s, u, h, n, c.spurious);
      case UpAlloc(_, i) => assert Step(s, u, c) == UpAllocStep(s, u, i);
      case Dropping(h) => assert Step(s, u, c) == DropStep(s, u, h);
      case DropAlloc(i) => assert Step(s, u, c) == DropAllocStep(s, u, i);
      case WeakDropping(h) => assert Step(s, u, c) == DropAllocStep(s, u, h);
      case _ =>
    }
  }

  // ----- The invariant -----

  function AllocShare(h: Handle): nat {
    match h
    case Arc | Weak => 1
    case Stray(_, alloc, _) => alloc
    case Gone => 0
  }

  /** Outstanding references in the second counter. */
  ghost function Allocs(handles: seq<Handle>): nat {
    Sum(handles, AllocShare)
  }

  /** The hypothesis on the program. */
  ghost predicate Bounded(s: State) {
    Arcs(s.handles) < MAX - 1 && Allocs(s.handles) < MAX - 1
  }

  ghost predicate AlwaysBounded(s: State, sched: seq<(nat, Choice)>)
    decreases |sched|
  {
    Bounded(s) && (sched != [] ==> AlwaysBounded(Step(s, sched[0].0, sched[0].1), sched[1..]))
  }

  predicate Owns(s: State, i: nat, kind: Handle) {
    i < |s.handles| && s.handles[i] == kind
  }

  predicate PcOk(s: State, t: nat)
    requires t < |s.threads|
  {
    var pc := s.threads[t];
    && (s.last == By(t) <==> pc.DropData?)
    && (s.freer == By(t) <==> pc.Freeing?)
    && (pc.CloneData? ==> Owns(s, pc.i, Stray(0, 1, t)))
    && (pc.UpAlloc? ==> Owns(s, pc.i, Stray(1, 0, t)))
    && (pc.DropData? || pc.DropAlloc? ==> Owns(s, pc.i, Stray(0, 1, t)))
    && (pc.UpCas? ==> 0 < pc.n < MAX)
    && !pc.Panicked?
  }

  /** A reference that only the first counter includes belongs to an upgrade in flight. */
  predicate StrayOk(s: State, i: nat)
    requires i < |s.handles|
  {
    var h := s.handles[i];
    h.Stray? ==>
      && h.data <= 1 && h.alloc <= 1
      && (h.alloc == 0 ==> h.owner < |s.threads| && s.threads[h.owner].UpAlloc? && s.threads[h.owner].i == i)
  }

  predicate Balanced(s: State, arcs: nat, allocs: nat) {
    && s.data == arcs
    && s.alloc == allocs
    && (s.last.By? ==> arcs == 0)
    && s.dropped == One(arcs == 0 && s.last.Nobody?)
    && s.freed + One(s.freer.By?) + One(allocs > 0) == 1
  }

  ghost predicate Inv(s: State) {
    && Balanced(s, Arcs(s.handles), Allocs(s.handles))
    && !s.bad
    && Borrows(s.handles, Loans(s.threads))
    && (forall t: nat | t < |s.threads| :: PcOk(s, t))
    && (forall i: nat | i < |s.handles| :: StrayOk(s, i))
    && (forall t: nat | t < |s.threads| && s.threads[t].Mutating? :: Arcs(s.handles) == 1 && Allocs(s.handles) == 1)
    && (s.last.By? ==> s.last.t < |s.threads|)
    && (s.freer.By? ==> s.freer.t < |s.threads|)
  }

  lemma InitInv(n: nat)
    ensures Inv(Init(n))
  {
    assert Init(n).handles[1..] == [];
  }

  /** Thread `t` works through a borrowed handle or a stray reference of its own. */
  predicate Busy(pc: Pc) {
    !LoanOf(pc).NoLoan? || pc.DropData? || pc.DropAlloc?
  }

  /** The reference through which a busy thread works. */
  function Working(pc: Pc): nat
    requires Busy(pc)
  {
    if pc.DropData? || pc.DropAlloc? then pc.i else LoanOf(pc).h
  }

  lemma WorksOn(s: State, t: nat)
    requires Inv(s) && t < |s.threads| && Busy(s.threads[t])
    ensures var h := Working(s.threads[t]);
      && h < |s.handles| && AllocShare(s.handles[h]) == 1 && Allocs(s.handles) > 0
      && (LoanOf(s.threads[t]).NoLoan? ==> s.handles[h] == Stray(0, 1, t))
      && (!LoanOf(s.threads[t]).NoLoan? ==> s.handles[h] == LoanOf(s.threads[t]).kind)
  {
    assert PcOk(s, t);
    if !LoanOf(s.threads[t]).NoLoan? {
      assert Backed(s.handles, Loans(s.threads)[t]);
    }
    SumAtLeast(s.handles, Working(s.threads[t]), AllocShare);
  }

  /** A busy thread keeps every other thread from being alone. */
  lemma NotAlone(s: State, t: nat)
    requires Inv(s) && t < |s.threads| && Busy(s.threads[t])
    ensures forall u: nat | u < |s.threads| && u != t :: !s.threads[u].Mutating?
  {
    WorksOn(s, t);
    forall u: nat | u < |s.threads| && u != t
      ensures !s.threads[u].Mutating?
    {
      if s.threads[u].Mutating? {
        WorksOn(s, u);
        var i, j := Working(s.threads[t]), Working(s.threads[u]);
        assert !Conflict(Loans(s.threads)[t], Loans(s.threads)[u]);
        SumAtLeastTwo(s.handles, if i < j then i else j, if i < j then j else i, AllocShare);
      }
    }
  }

  /** The block exists for a busy thread, and T for one that works through an `Arc` or owes its drop. */
  lemma Safe(s: State, t: nat)
    requires Inv(s) && t < |s.threads|
    ensures Busy(s.threads[t]) || s.threads[t].Freeing? ==> Touch(s) == s
    ensures s.threads[t].DropData? ==> TouchData(s) == s
    ensures !LoanOf(s.threads[t]).NoLoan? ==> LoanOf(s.threads[t]).kind == Arc ==>
      TouchData(s) == s && Arcs(s.handles) > 0
  {
    assert PcOk(s, t);
    if Busy(s.threads[t]) {
      WorksOn(s, t);
      SumAtLeast(s.handles, Working(s.threads[t]), ArcShare);
    }
  }

  /** `s'` differs from `s` only in what belongs to thread `t`. */
  predicate OnlyOf(t: nat, s: State, s': State) {
    && t < |s.threads| == |s'.threads| && s'.threads == s.threads[t := s'.threads[t]]
    && |s.handles| <= |s'.handles|
    && (forall i | 0 <= i < |s.handles| && s.handles[i].Stray? && s.handles[i].owner != t ::
          s'.handles[i] == s.handles[i])
    && SameForOthers(s.last, s'.last, t)
    && SameForOthers(s.freer, s'.freer, t)
  }

  lemma OthersKept(t: nat, s: State, s': State)
    requires forall u: nat | u < |s.threads| :: PcOk(s, u)
    requires OnlyOf(t, s, s')
    ensures forall u: nat | u < |s.threads| && u != t :: PcOk(s', u)
  {
    forall u: nat | u < |s.threads| && u != t
      ensures PcOk(s', u)
    {
      assert PcOk(s, u);
    }
  }

  /** Stray references after a step of thread `t`; `i` is the one handle that the step creates or changes. */
  lemma StraysKept(t: nat, s: State, s': State, i: nat)
    requires forall j: nat | j < |s.handles| :: StrayOk(s, j)
    requires OnlyOf(t, s, s') && |s'.handles| <= |s.handles| + 1
    requires i <= |s.handles| && (i < |s'.handles| ==> StrayOk(s', i))
    requires |s'.handles| > |s.handles| ==> i == |s.handles|
    requires forall j | 0 <= j < |s.handles| && j != i :: s'.handles[j] == s.handles[j]
    requires s.threads[t].UpAlloc? ==> s.threads[t].i == i || s'.threads[t] == s.threads[t]
    ensures forall j: nat | j < |s'.handles| :: StrayOk(s', j)
  {
    forall j: nat | j < |s'.handles| && j != i
      ensures StrayOk(s', j)
    {
      assert StrayOk(s, j);
    }
  }

  /** Steps of thread `t` that only move its program counter. */
  lemma InvMove(s: State, t: nat, pc: Pc)
    requires Inv(s) && t < |s.threads| && MayHold(s.handles, Loans(s.threads), t, LoanOf(pc))
    requires PcOk(Goto(s, t, pc), t) && !s.threads[t].UpAlloc?
    requires pc.Mutating? ==> Arcs(s.handles) == 1 && Allocs(s.handles) == 1
    ensures Inv(Goto(s, t, pc))
  {
    var s' := Goto(s, t, pc);
    LoanMoved(s.handles, Loans(s.threads), t, Loans(s.threads[t := pc]));
    OthersKept(t, s, s');
    StraysKept(t, s, s', |s.handles|);
  }

  /** Steps that create a handle; `data` and `alloc` are the new counters. */
  lemma InvAdd(s: State, t: nat, kind: Handle, pc: Pc)
    requires Inv(s) && t < |s.threads| && !LoanOf(s.threads[t]).NoLoan? && !s.threads[t].UpAlloc?
    requires ArcShare(kind) > 0 ==> Arcs(s.handles) > 0
    requires LoanOf(pc).NoLoan? || LoanOf(pc) == LoanOf(s.threads[t])
    requires !pc.Mutating?
    requires var s' := Add(s, t, kind, pc); PcOk(s', t) && StrayOk(s', |s.handles|)
    ensures Inv(Add(s, t, kind, pc).(data := s.data + ArcShare(kind), alloc := s.alloc + AllocShare(kind)))
  {
    var s' := Add(s, t, kind, pc).(data := s.data + ArcShare(kind), alloc := s.alloc + AllocShare(kind));
    WorksOn(s, t);
    NotAlone(s, t);
    LoanMoved(s.handles, Loans(s.threads), t, Loans(s.threads[t := pc]));
    Created(s.handles, Loans(s'.threads), kind);
    Added(s.handles, kind);
    SumAppend(s.handles, kind, AllocShare);
    OthersKept(t, s, s');
    StraysKept(t, s, s', |s.handles|);
  }

  lemma InvClone(s: State, t: nat, h: nat)
    requires Inv(s) && Bounded(s) && t < |s.threads| && s.threads[t] == CloneAlloc(h)
    ensures Inv(WeakCloneStep(s, t, Stray(0, 1, t), CloneData(h, |s.handles|)))
  {
    assert PcOk(s, t);
    Safe(s, t);
    if s.alloc > MAX / 2 { InvAdd(s, t, Stray(0, 1, t), Aborting); }
    else { InvAdd(s, t, Stray(0, 1, t), CloneData(h, |s.handles|)); }
  }

  lemma InvNewWeak(s: State, t: nat)
    requires Inv(s) && Bounded(s) && t < |s.threads| && (s.threads[t].DownAlloc? || s.threads[t].WeakCloning?)
    ensures Inv(WeakCloneStep(s, t, Weak, Idle))
  {
    assert PcOk(s, t);
    Safe(s, t);
    if s.alloc > MAX / 2 { InvAdd(s, t, Stray(0, 1, t), Aborting); }
    else { InvAdd(s, t, Weak, Idle); }
  }

  lemma InvUpgrade(s: State, t: nat, h: nat, n: nat, spurious: bool)
    requires Inv(s) && Bounded(s) && t < |s.threads|
    requires s.threads[t] == UpLoad(h) || s.threads[t] == UpCas(h, n)
    ensures Inv(Goto(Touch(s), t, UpDecide(h, s.data)))
    ensures s.threads[t].UpCas? ==> Inv(UpCasStep(s, t, h, n, spurious))
  {
    assert PcOk(s, t);
    Safe(s, t);
    InvMove(s, t, UpDecide(h, s.data));
    if s.threads[t].UpCas? && s.data == n && !spurious {
      InvAdd(s, t, Stray(1, 0, t), UpAlloc(h, |s.handles|));
    }
  }

  /** The reference that a clone or an upgrade completes. */
  lemma Completed(s: State, t: nat, i: nat, kind: Handle)
    requires Inv(s) && t < |s.threads|
    requires (s.threads[t].CloneData? || s.threads[t].UpAlloc?) && s.threads[t].i == i
    requires kind == Arc || kind == Stray(1, 1, t)
    ensures i < |s.handles| && Borrows(s.handles[i := kind], Loans(s.threads)[t := NoLoan])
    ensures Allocs(s.handles) > 0
    ensures s.threads[t].CloneData? ==>
      Arcs(s.handles[i := kind]) == Arcs(s.handles) + 1 && Allocs(s.handles[i := kind]) == Allocs(s.handles)
    ensures s.threads[t].UpAlloc? ==>
      && Arcs(s.handles[i := kind]) == Arcs(s.handles) > 0
      && Allocs(s.handles[i := kind]) == Allocs(s.handles) + 1
  {
    assert PcOk(s, t);
    WorksOn(s, t);
    Settled(s.handles, Loans(s.threads), i, kind);
    Ended(s.handles[i := kind], Loans(s.threads), t);
    Changed(s.handles, i, kind);
    SumUpdate(s.handles, i, kind, AllocShare);
    SumAtLeast(s.handles, i, ArcShare);
  }

  /** The second increment of a clone or of an upgrade. */
  lemma InvSettle(s: State, t: nat, i: nat, kind: Handle)
    requires Inv(s) && Bounded(s) && t < |s.threads|
    requires (s.threads[t].CloneData? || s.threads[t].UpAlloc?) && s.threads[t].i == i
    requires kind == Arc || kind == Stray(1, 1, t)
    ensures i < |s.handles|
    ensures s.threads[t].CloneData? ==>
      Inv(Change(s, t, i, kind, if kind == Arc then Idle else Aborting).(data := s.data + 1))
    ensures s.threads[t].UpAlloc? ==>
      Inv(Change(s, t, i, kind, if kind == Arc then Idle else Aborting).(alloc := s.alloc + 1))
  {
    assert PcOk(s, t);
    Completed(s, t, i, kind);
    var s1 := Change(s, t, i, kind, if kind == Arc then Idle else Aborting);
    var s' := if s.threads[t].CloneData? then s1.(data := s.data + 1) else s1.(alloc := s.alloc + 1);
    Safe(s, t);
    NotAlone(s, t);
    assert Loans(s'.threads) == Loans(s.threads)[t := NoLoan];
    OthersKept(t, s, s');
    StraysKept(t, s, s', i);
  }

  /** If the caller's `Arc` is the only reference in the second counter, no upgrade is in flight either. */
  lemma AllocIsEnough(s: State, t: nat)
    requires Inv(s) && t < |s.threads| && s.threads[t].GmLoad? && Allocs(s.handles) == 1
    ensures Arcs(s.handles) == 1
  {
    forall i | 0 <= i < |s.handles|
      ensures ArcShare(s.handles[i]) <= AllocShare(s.handles[i])
    {
      assert StrayOk(s, i);
      if s.handles[i].Stray? && s.handles[i].alloc == 0 {
        var u := s.handles[i].owner;
        WorksOn(s, t);
        WorksOn(s, u);
        Apart(s.handles, Loans(s.threads), t, u);
        var a, b := s.threads[t].h, s.threads[u].h;
        SumAtLeastTwo(s.handles, if a < b then a else b, if a < b then b else a, AllocShare);
      }
    }
    SumMonotone(s.handles, ArcShare, AllocShare);
    Safe(s, t);
  }

  lemma InvGetMut(s: State, t: nat, h: nat, stale: bool)
    requires Inv(s) && t < |s.threads| && s.threads[t] == GmLoad(h)
    ensures s.alloc == 1 <==> Allocs(s.handles) == 1 && Arcs(s.handles) == 1
    ensures Inv(GmLoadStep(s, t, h, stale))
  {
    assert PcOk(s, t);
    Safe(s, t);
    if s.alloc == 1 { AllocIsEnough(s, t); }
    InvMove(s, t, if s.alloc == 1 && !stale then Mutating(h) else Idle);
  }

  lemma InvDrop(s: State, t: nat, h: nat)
    requires Inv(s) && Bounded(s) && t < |s.threads| && s.threads[t] == Dropping(h)
    ensures Inv(DropStep(s, t, h))
  {
    assert PcOk(s, t);
    Safe(s, t);
    WorksOn(s, t);
    NotAlone(s, t);
    var s' := DropStep(s, t, h);
    GivenUp(s.handles, Loans(s.threads), t, Stray(0, 1, t));
    assert Loans(s'.threads) == Loans(s.threads)[t := NoLoan];
    Changed(s.handles, h, Stray(0, 1, t));
    SumUpdate(s.handles, h, Stray(0, 1, t), AllocShare);
    OthersKept(t, s, s');
    StraysKept(t, s, s', h);
  }

  /** The handle that a drop leaves behind. */
  lemma Dropped(s: State, t: nat, i: nat)
    requires Inv(s) && t < |s.threads| && (s.threads[t] == DropAlloc(i) || s.threads[t] == WeakDropping(i))
    ensures i < |s.handles| && Borrows(s.handles[i := Gone], Loans(s.threads)[t := NoLoan])
    ensures Arcs(s.handles[i := Gone]) == Arcs(s.handles)
    ensures Allocs(s.handles[i := Gone]) + 1 == Allocs(s.handles)
  {
    WorksOn(s, t);
    if s.threads[t].WeakDropping? {
      GivenUp(s.handles, Loans(s.threads), t, Gone);
    } else {
      Settled(s.handles, Loans(s.threads), i, Gone);
      Ended(s.handles[i := Gone], Loans(s.threads), t);
    }
    Changed(s.handles, i, Gone);
    SumUpdate(s.handles, i, Gone, AllocShare);
  }

  lemma DropAllocBalanced(s: State, t: nat, i: nat)
    requires Inv(s) && t < |s.threads| && (s.threads[t] == DropAlloc(i) || s.threads[t] == WeakDropping(i))
    ensures var s' := DropAllocStep(s, t, i); Balanced(s', Arcs(s'.handles), Allocs(s'.handles)) && !s'.bad
  {
    assert PcOk(s, t);
    Safe(s, t);
    Dropped(s, t, i);
  }

  lemma InvDropAlloc(s: State, t: nat, i: nat)
    requires Inv(s) && Bounded(s) && t < |s.threads|
    requires s.threads[t] == DropAlloc(i) || s.threads[t] == WeakDropping(i)
    ensures Inv(DropAllocStep(s, t, i))
  {
    assert PcOk(s, t);
    Safe(s, t);
    WorksOn(s, t);
    NotAlone(s, t);
    Dropped(s, t, i);
    DropAllocBalanced(s, t, i);
    var s' := DropAllocStep(s, t, i);
    assert s'.handles == s.handles[i := Gone];
    assert Loans(s'.threads) == Loans(s.threads)[t := NoLoan];
    OthersKept(t, s, s');
    StraysKept(t, s, s', i);
    assert PcOk(s', t);
  }

  lemma InvFinish(s: State, t: nat, c: Choice)
    requires Inv(s) && Bounded(s) && !s.aborted && t < |s.threads|
    requires s.threads[t].DropData? || s.threads[t].Freeing?
    ensures Inv(Step(s, t, c))
  {
    var s' := Step(s, t, c);
    assert PcOk(s, t);
    Safe(s, t);
    if Busy(s.threads[t]) { WorksOn(s, t); }
    LoanMoved(s.handles, Loans(s.threads), t, Loans(s'.threads));
    OthersKept(t, s, s');
    StraysKept(t, s, s', |s.handles|);
  }

  lemma InvPlain(s: State, t: nat, c: Choice)
    requires Inv(s) && Bounded(s) && !s.aborted && t < |s.threads|
    requires s.threads[t].Idle? || s.threads[t].Reading? || s.threads[t].Mutating?
    ensures Inv(Step(s, t, c))
  {
    assert PcOk(s, t);
    if !s.threads[t].Idle? {
      Safe(s, t);
      InvMove(s, t, Idle);
    } else if Begin(s, t, c.op, c.h) != s {
      InvMove(s, t, First(c.op, c.h));
    }
  }

  lemma InvAbort(s: State)
    requires Inv(s)
    ensures Inv(s.(aborted := true))
  {
    var s' := s.(aborted := true);
    assert forall u: nat | u < |s.threads| :: PcOk(s, u) ==> PcOk(s', u);
    assert forall j: nat | j < |s.handles| :: StrayOk(s, j) ==> StrayOk(s', j);
  }

  lemma InvSecond(s: State, t: nat, i: nat)
    requires Inv(s) && Bounded(s) && t < |s.threads|
    requires (s.threads[t].CloneData? || s.threads[t].UpAlloc?) && s.threads[t].i == i
    ensures s.threads[t].CloneData? ==> Inv(CloneDataStep(s, t, i))
    ensures s.threads[t].UpAlloc? ==> Inv(UpAllocStep(s, t, i))
  {
    Safe(s, t);
    InvSettle(s, t, i, Arc);
    InvSettle(s, t, i, Stray(1, 1, t));
  }

  /** The steps of clone, downgrade and upgrade. */
  lemma InvCreating(s: State, t: nat, c: Choice)
    requires Inv(s) && Bounded(s) && !s.aborted && t < |s.threads|
    requires var pc := s.threads[t];
      pc.CloneAlloc? || pc.CloneData? || pc.DownAlloc? || pc.WeakCloning? || pc.UpLoad? || pc.UpCas? || pc.UpAlloc?
    ensures Inv(Step(s, t, c))
  {
    match s.threads[t]
    case CloneAlloc(h) => InvClone(s, t, h);
    case CloneData(_, i) => InvSecond(s, t, i);
    case DownAlloc(_) | WeakCloning(_) => InvNewWeak(s, t);
    case UpLoad(h) =>
      InvUpgrade(s, t, h, 0, c.spurious);
      assert Step(s, t, c) == Goto(Touch(s), t, UpDecide(h, s.data));
    case UpCas(h, n) => InvUpgrade(s, t, h, n, c.spurious);
    case UpAlloc(_, i) => InvSecond(s, t, i);
  }

  lemma StepInv(s: State, t: nat, c: Choice)
    requires Inv(s) && Bounded(s)
    ensures Inv(Step(s, t, c))
  {
    if !s.aborted && t < |s.threads| {
      match s.threads[t]
      case Idle | Reading(_) | Mutating(_) => InvPlain(s, t, c);
      case CloneAlloc(_) | CloneData(_, _) | DownAlloc(_) | WeakCloning(_) | UpLoad(_) | UpCas(_, _) | UpAlloc(_, _) =>
        InvCreating(s, t, c);
      case GmLoad(h) =>
        InvGetMut(s, t, h, c.spurious);
        assert Step(s, t, c) == GmLoadStep(s, t, h, c.spurious);
      case Dropping(h) => InvDrop(s, t, h);
      case DropAlloc(i) => InvDropAlloc(s, t, i);
      case WeakDropping(h) => InvDropAlloc(s, t, h);
      case DropData(_) | Freeing => InvFinish(s, t, c);
      case Aborting => InvAbort(s);
      case Panicked =>
    }
  }

  lemma {:induction false} RunInv(s: State, sched: seq<(nat, Choice)>)
    requires Inv(s) && AlwaysBounded(s, sched)
    ensures Inv(Run(s, sched)) && Bounded(Run(s, sched))
    decreases |sched|
  {
    if sched == [] {
    } else {
      StepInv(s, sched[0].0, sched[0].1);
      RunInv(Step(s, sched[0].0, sched[0].1), sched[1..]);
    }
  }

  // ----- What every run keeps -----

  /**
   What thread `t` knows when its step goes on from `pc` to `pc'`: one load of the second counter decides,
   unless it is `stale`, which can only refuse.
   */
  ghost predicate DecidesOnAlloc(s: State, pc: Pc, pc': Pc, stale: bool) {
    && (pc.GmLoad? ==> (pc' == Mutating(pc.h) <==> Allocs(s.handles) == 1 && !stale))
    && (pc.GmLoad? ==> (pc' == Idle <==> Allocs(s.handles) != 1 || stale))
    && (pc.GmLoad? && Allocs(s.handles) == 1 ==> Arcs(s.handles) == 1)
    && (pc.Mutating? ==> Allocs(s.handles) == 1 && Arcs(s.handles) == 1)
  }

  lemma StepDecides(s: State, t: nat, c: Choice)
    requires Inv(s) && Bounded(s) && t < |s.threads| && !s.aborted
    ensures t < |Step(s, t, c).threads| && DecidesOnAlloc(s, s.threads[t], Step(s, t, c).threads[t], c.spurious)
  {
    if s.threads[t].GmLoad? {
      InvGetMut(s, t, s.threads[t].h, c.spurious);
      assert Step(s, t, c) == GmLoadStep(s, t, s.threads[t].h, c.spurious);
    } else if s.threads[t].Mutating? {
      assert Step(s, t, c) == Goto(TouchData(s), t, Idle);
    } else {
      ThreadsStay(s, t, c);
    }
  }

  /**
   Each counter is the number of outstanding references it includes. The load of get_mut, unless it is stale,
   sees 1 in the second counter exactly when the caller's `Arc` is the only reference in both; and it stays
   so while the returned borrow lives.
   */
  lemma AllocAloneDecidesGetMut(n: nat, sched: seq<(nat, Choice)>, t: nat, c: Choice)
    requires AlwaysBounded(Init(n), sched)
    requires var s := Run(Init(n), sched); t < |s.threads| && !s.aborted
    ensures var s := Run(Init(n), sched); s.data == Arcs(s.handles) && s.alloc == Allocs(s.handles)
    ensures var s := Run(Init(n), sched); var s' := Step(s, t, c);
      t < |s'.threads| && DecidesOnAlloc(s, s.threads[t], s'.threads[t], c.spurious)
  {
    InitInv(n);
    RunInv(Init(n), sched);
    StepDecides(Run(Init(n), sched), t, c);
  }

  /** When get_mut answers Some, nobody else is in the middle of any operation on the references. */
  lemma NobodyMidway(n: nat, sched: seq<(nat, Choice)>, t: nat, u: nat)
    requires AlwaysBounded(Init(n), sched)
    requires var s := Run(Init(n), sched);
      && t < |s.threads| && u < |s.threads| && u != t
      && (s.threads[t].Mutating? || (s.threads[t].GmLoad? && s.alloc == 1))
    ensures !Busy(Run(Init(n), sched).threads[u])
  {
    InitInv(n);
    RunInv(Init(n), sched);
    var s := Run(Init(n), sched);
    if Busy(s.threads[u]) {
      WorksOn(s, t);
      WorksOn(s, u);
      assert !Conflict(Loans(s.threads)[t], Loans(s.threads)[u]);
      var i, j := Working(s.threads[t]), Working(s.threads[u]);
      SumAtLeastTwo(s.handles, if i < j then i else j, if i < j then j else i, AllocShare);
    }
  }

  /** A reference in the first counter alone is an upgrade in flight, whose `Weak` is in the second. */
  lemma NoBlockNoArc(s: State)
    requires Inv(s) && Allocs(s.handles) == 0
    ensures Arcs(s.handles) == 0
  {
    forall i | 0 <= i < |s.handles|
      ensures ArcShare(s.handles[i]) <= AllocShare(s.handles[i])
    {
      assert StrayOk(s, i);
      if s.handles[i].Stray? && s.handles[i].alloc == 0 {
        WorksOn(s, s.handles[i].owner);
      }
    }
    SumMonotone(s.handles, ArcShare, AllocShare);
  }

  /** T is dropped and the block freed at most once, in this order; nothing touches either too late. */
  lemma TwoStageLifetime(n: nat, sched: seq<(nat, Choice)>)
    requires AlwaysBounded(Init(n), sched)
    ensures var s := Run(Init(n), sched);
      && !s.bad
      && s.freed <= s.dropped <= 1
      && (s.dropped == 1 ==> Arcs(s.handles) == 0)
      && (s.freed == 1 ==> Allocs(s.handles) == 0)
      && (forall t: nat | t < |s.threads| :: !s.threads[t].Panicked?)
      && (forall t: nat | t < |s.threads| && (s.threads[t].Reading? || s.threads[t].Mutating?) :: s.dropped == 0)
      && (forall t: nat | t < |s.threads| && !LoanOf(s.threads[t]).NoLoan? :: s.freed == 0)
  {
    InitInv(n);
    RunInv(Init(n), sched);
    var s := Run(Init(n), sched);
    forall t: nat | t < |s.threads|
      ensures !s.threads[t].Panicked? && (s.threads[t].Reading? || s.threads[t].Mutating? ==> s.dropped == 0)
      ensures !LoanOf(s.threads[t]).NoLoan? ==> s.freed == 0
    {
      assert PcOk(s, t);
      Safe(s, t);
    }
    if Allocs(s.handles) == 0 {
      NoBlockNoArc(s);
      if s.last.By? {
        assert PcOk(s, s.last.t);
        WorksOn(s, s.last.t);
      }
    }
  }

  predicate AllGone(s: State) {
    && (forall t: nat | t < |s.threads| :: s.threads[t] == Idle)
    && (forall h: nat | h < |s.handles| :: s.handles[h] == Gone)
  }

  lemma NothingLeaks(n: nat, sched: seq<(nat, Choice)>)
    requires AlwaysBounded(Init(n), sched) && AllGone(Run(Init(n), sched))
    ensures var s := Run(Init(n), sched); s.dropped == 1 && s.freed == 1
  {
    InitInv(n);
    RunInv(Init(n), sched);
    var s := Run(Init(n), sched);
    SumConstant(s.handles, 0, ArcShare);
    SumConstant(s.handles, 0, AllocShare);
    assert s.last.By? ==> PcOk(s, s.last.t);
    assert s.freer.By? ==> PcOk(s, s.freer.t);
  }

  lemma ZeroStays(s: State, t: nat, c: Choice)
    requires Inv(s)
    ensures s.data == 0 ==> Step(s, t, c).data == 0
  {
    if t < |s.threads| {
      assert PcOk(s, t);
      Safe(s, t);
    }
  }

  /** Few kinds of step concern the ends of the two lifetimes. */
  lemma QuietStep(s: State, t: nat, c: Choice)
    requires t < |s.threads|
    ensures var s' := Step(s, t, c); var pc := s.threads[t];
      && (!pc.Dropping? && !pc.DropData? ==> s'.last == s.last && s'.dropped == s.dropped)
      && (!pc.DropAlloc? && !pc.WeakDropping? && !pc.Freeing? ==> s'.freer == s.freer && s'.freed == s.freed)
  {
    if !s.aborted {
      match s.threads[t]
      case Idle => assert Step(s, t, c) == Begin(s, t, c.op, c.h);
      case CloneAlloc(h) => assert Step(s, t, c) == WeakCloneStep(s, t, Stray(0, 1, t), CloneData(h, |s.handles|));
      case CloneData(_, i) => assert Step(s, t, c) == CloneDataStep(s, t, i);
      case UpCas(h, n) => assert Step(s, t, c) == UpCasStep(s, t, h, n, c.spurious);
      case UpAlloc(_, i) => assert Step(s, t, c) == UpAllocStep(s, t, i);
      case _ =>
    }
  }

  lemma DataStep(s: State, t: nat, c: Choice)
    requires t < |s.threads| ==> PcOk(s, t)
    ensures var s' := Step(s, t, c);
      && (s'.last != s.last && s'.last.By? ==> s'.last.t == t && s.data == 1 && s'.data == 0)
      && (s'.dropped > s.dropped ==> s.last == By(t))
  {
    if t < |s.threads| && !s.threads[t].Dropping? && !s.threads[t].DropData? {
      QuietStep(s, t, c);
    }
  }

  lemma BlockStep(s: State, t: nat, c: Choice)
    requires Balanced(s, Arcs(s.handles), Allocs(s.handles)) && (t < |s.threads| ==> PcOk(s, t))
    ensures var s' := Step(s, t, c);
      && (s'.freer != s.freer && s'.freer.By? ==> s'.freer.t == t && s.alloc == 1 && s'.alloc == 0)
      && (s'.freed > s.freed ==> s.freer == By(t) && s.alloc == 0)
  {
    if t < |s.threads| && !s.threads[t].DropAlloc? && !s.threads[t].WeakDropping? && !s.threads[t].Freeing? {
      QuietStep(s, t, c);
    }
  }

  lemma UpgradeStep(s: State, t: nat, c: Choice)
    requires Balanced(s, Arcs(s.handles), Allocs(s.handles)) && t < |s.threads| && PcOk(s, t)
    requires s.threads[t].UpCas? && Step(s, t, c).data > s.data
    ensures s.dropped == 0
  {
  }

  /** What a step of thread `t` from `s` to `s'` may do to the two lifetimes. */
  predicate LifetimeStep(s: State, s': State, t: nat) {
    && (s.data == 0 ==> s'.data == 0)
    && (s'.last != s.last && s'.last.By? ==> s'.last.t == t && s.data == 1 && s'.data == 0)
    && (s'.dropped > s.dropped ==> s.last == By(t))
    && (s'.freer != s.freer && s'.freer.By? ==> s'.freer.t == t && s.alloc == 1 && s'.alloc == 0)
    && (s'.freed > s.freed ==> s.freer == By(t) && s.alloc == 0)
    && (t < |s.threads| && s.threads[t].UpCas? && s'.data > s.data ==> s.dropped == 0)
  }

  lemma StepEndsLifetimes(s: State, t: nat, c: Choice)
    requires Inv(s)
    ensures LifetimeStep(s, Step(s, t, c), t)
  {
    ZeroStays(s, t, c);
    assert t < |s.threads| ==> PcOk(s, t);
    DataStep(s, t, c);
    BlockStep(s, t, c);
    if t < |s.threads| && s.threads[t].UpCas? && Step(s, t, c).data > s.data {
      UpgradeStep(s, t, c);
    }
  }

  /** Who ends the two lifetimes, and that the first count never leaves 0 again. */
  lemma WhoEndsTheLifetimes(n: nat, sched: seq<(nat, Choice)>, t: nat, c: Choice)
    requires AlwaysBounded(Init(n), sched)
    ensures LifetimeStep(Run(Init(n), sched), Step(Run(Init(n), sched), t, c), t)
  {
    InitInv(n);
    RunInv(Init(n), sched);
    StepEndsLifetimes(Run(Init(n), sched), t, c);
  }

  // ----- The first counter may overtake the second -----

  /** `j` of the threads have upgraded the same `Weak` and not yet reached the second counter. */
  ghost predicate Overtaking(s: State, j: nat) {
    && j <= |s.threads| && !s.aborted
    && s.data == 1 + j && s.alloc == 2
    && |s.handles| >= 2 && s.handles[1] == Weak
    && Arcs(s.handles) == 1 + j && Allocs(s.handles) == 2
    && (forall u | 0 <= u < |s.threads| ::
          if u < j then s.threads[u].UpAlloc? && s.threads[u].h == 1 else s.threads[u] == Idle)
  }

  lemma OvertakeOnce(s: State, j: nat) returns (sched: seq<(nat, Choice)>)
    requires Overtaking(s, j) && j < |s.threads| && j + 4 < MAX
    ensures AlwaysBounded(s, sched) && Overtaking(Run(s, sched), j + 1) && |Run(s, sched).threads| == |s.threads|
  {
    var c := Choice(Upgrade, 1, false);
    var s1 := Step(s, j, c);
    assert s1 == Goto(s, j, UpLoad(1));
    var s2 := Step(s1, j, c);
    assert s2.threads == s1.threads[j := UpCas(1, s.data)];
    var s3 := Step(s2, j, c);
    assert s3.handles == s.handles + [Stray(1, 0, j)];
    Added(s.handles, Stray(1, 0, j));
    SumAppend(s.handles, Stray(1, 0, j), AllocShare);
    sched := [(j, c), (j, c), (j, c)];
    assert sched[1..] == [(j, c), (j, c)] && sched[1..][1..] == [(j, c)] && sched[1..][1..][1..] == [];
    assert Run(s, sched) == Run(s1, sched[1..]) == Run(s2, sched[1..][1..]) == Run(s3, []);
    assert AlwaysBounded(s3, []) && AlwaysBounded(s2, sched[1..][1..]) && AlwaysBounded(s1, sched[1..]);
  }

  lemma {:induction false} Concat(s: State, a: seq<(nat, Choice)>, b: seq<(nat, Choice)>)
    requires AlwaysBounded(s, a) && AlwaysBounded(Run(s, a), b)
    ensures AlwaysBounded(s, a + b) && Run(s, a + b) == Run(Run(s, a), b)
    decreases |a|
  {
    if a == [] {
      assert a + b == b;
    } else {
      assert (a + b)[1..] == a[1..] + b;
      Concat(Step(s, a[0].0, a[0].1), a[1..], b);
    }
  }

  lemma {:induction false} OvertakeMany(n: nat, j: nat) returns (sched: seq<(nat, Choice)>)
    requires 0 < n < MAX - 4 && j <= n
    ensures AlwaysBounded(Init(n), sched)
    ensures Overtaking(Run(Init(n), sched), j) && |Run(Init(n), sched).threads| == n
    decreases j
  {
    var s0 := Init(n);
    if j == 0 {
      var c := Choice(Downgrade, 0, false);
      var s1 := Step(s0, 0, c);
      assert s1 == Goto(s0, 0, DownAlloc(0));
      var s2 := Step(s1, 0, c);
      assert s2.threads == s0.threads;
      assert s0.handles[1..] == [];
      assert s2.handles == s0.handles + [Weak];
      Added(s0.handles, Weak);
      SumAppend(s0.handles, Weak, AllocShare);
      sched := [(0, c), (0, c)];
      assert sched[1..] == [(0, c)] && sched[1..][1..] == [];
      assert Run(s0, sched) == Run(s1, sched[1..]) == Run(s2, []);
      assert AlwaysBounded(s2, []) && AlwaysBounded(s1, sched[1..]);
    } else {
      var before := OvertakeMany(n, j - 1);
      var more := OvertakeOnce(Run(s0, before), j - 1);
      Concat(s0, before, more);
      sched := before + more;
    }
  }

  /** Concurrent upgrades through one shared `Weak` push the first counter above the second by any amount. */
  lemma DataMayOvertakeAlloc(n: nat)
    requires 1 < n < MAX - 4
    ensures exists sched: seq<(nat, Choice)> ::
      && AlwaysBounded(Init(n), sched)
      && Run(Init(n), sched).data == n + 1 > Run(Init(n), sched).alloc == 2
  {
    var sched := OvertakeMany(n, n);
  }
}
