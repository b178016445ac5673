/**
 The optimised `Arc`/`Weak`: two counters, one implicit weak reference shared by all `Arc`s, and
 `usize::MAX` as a lock value of the second counter.

 Any number of threads work on any number of handles. A handle is free, shared-borrowed by the
 threads whose operation reads through it, or exclusively borrowed by one thread: an operation holds
 its borrow from its first to its last step, and a step is one atomic operation or one access to T.
 */
module ArcOptimised {
  import opened Basics
  import opened Sums
  import opened Usize
  import opened Borrowing

  datatype Pc =
    | Idle
    | Reading(h: nat)              // a `&T` obtained by deref is alive
    | Cloning(h: nat)
    | Aborting                     // incremented too far, about to abort
    | DownLoad(h: nat)
    | DownCas(h: nat, n: nat)
    | WeakCloning(h: nat)
    | UpLoad(h: nat)
    | UpCas(h: nat, n: nat)
    | GmCas(h: nat)
    | GmLoad(h: nat)
    | GmStore(h: nat, unique: bool)
    | Mutating(h: nat)             // the `&mut T` returned by get_mut is alive
    | Dropping(h: nat)
    | DropData                     // took the count from 1 to 0, about to drop T
    | DropImplicit                 // about to drop the implicit weak reference
    | WeakDropping(h: nat)
    | Freeing                      // took the second count from 1 to 0, about to free the block
    | Panicked                     // an assert of upgrade or downgrade failed

  /**
   `dropped` and `freed` count how often T was dropped and the block freed; `bad` records undefined
   behaviour. Three history variables name the thread that holds the lock value, the one that took the
   first count from 1 to 0 and still owes the implicit weak reference, and the one that owes the block.
   */
  datatype State = State(data: nat, alloc: nat, dropped: nat, freed: nat, bad: bool, aborted: bool,
                         locker: Role, last: Role, freer: Role, handles: seq<Handle>, threads: seq<Pc>)

  /**
   `spurious`: a weak compare-exchange fails although the value matches, or the exchange or the Relaxed load of
   get_mut reads a stale value. A stale 1 is impossible, so that the latter can only refuse:
   `OptimisedClocksTheorems.GetMutDecides`.
   */
  datatype Choice = Choice(op: Op, h: nat, spurious: bool)

  /** What thread at `pc` has borrowed. */
  function LoanOf(pc: Pc): Loan {
    match pc
    case Reading(h) => Shared(h, Arc)
    case Cloning(h) => Shared(h, Arc)
    case DownLoad(h) => Shared(h, Arc)
    case DownCas(h, _) => Shared(h, Arc)
    case WeakCloning(h) => Shared(h, Weak)
    case UpLoad(h) => Shared(h, Weak)
    case UpCas(h, _) => Shared(h, Weak)
    case GmCas(h) => Exclusive(h, Arc)
    case GmLoad(h) => Exclusive(h, Arc)
    case GmStore(h, _) => Exclusive(h, Arc)
    case Mutating(h) => Exclusive(h, Arc)
    case Dropping(h) => Exclusive(h, Arc)
    case WeakDropping(h) => Exclusive(h, Weak)
    case _ => NoLoan
  }

  function Loans(threads: seq<Pc>): (loans: seq<Loan>)
    ensures |loans| == |threads|
    ensures forall t | 0 <= t < |threads| :: loans[t] == LoanOf(threads[t])
  {
    seq(|threads|, t requires 0 <= t < |threads| => LoanOf(threads[t]))
  }

  // ----- Steps -----

  function Goto(s: State, t: nat, pc: Pc): State
    requires t < |s.threads|
  {
    s.(threads := s.threads[t := pc])
  }

  /** An access to a counter of the block. */
  function Touch(s: State): State {
    s.(bad := s.bad || s.freed > 0)
  }

  /** An access to T. */
  function TouchData(s: State): State {
    s.(bad := s.bad || s.freed > 0 || s.dropped > 0)
  }

  function First(op: Op, h: nat): Pc {
    match op
    case Deref => Reading(h)
    case Clone => Cloning(h)
    case Drop => Dropping(h)
    case Downgrade => DownLoad(h)
    case GetMut => GmCas(h)
    case Upgrade => UpLoad(h)
    case CloneWeak => WeakCloning(h)
    case DropWeak => WeakDropping(h)
  }

  /** An operation starts as soon as its borrow is admitted. */
  function Begin(s: State, t: nat, op: Op, h: nat): State
    requires t < |s.threads|
  {
    var pc := First(op, h);
    if Admits(s.handles, Loans(s.threads), LoanOf(pc)) then Goto(s, t, pc) else s
  }

  function AddHandle(s: State, t: nat, kind: Handle): State
    requires t < |s.threads|
  {
    s.(handles := s.handles + [kind], threads := s.threads[t := if kind.Stray? then Aborting else Idle])
  }

  function CloneStep(s: State, t: nat): State
    requires t < |s.threads|
  {
    AddHandle(Touch(s), t, if s.data > MAX / 2 then Stray(1, 0, t) else Arc).(data := Increment(s.data))
  }

  function WeakCloneStep(s: State, t: nat): State
    requires t < |s.threads|
  {
    AddHandle(Touch(s), t, if s.alloc > MAX / 2 then Stray(0, 1, t) else Weak).(alloc := Increment(s.alloc))
  }

  /** The checks of downgrade between reading `n` and the compare-exchange. */
  function DownDecide(h: nat, n: nat): Pc {
    if n == MAX then DownLoad(h) else if n < MAX - 1 then DownCas(h, n) else Panicked
  }

  /** `compare_exchange_weak` may fail although the value matches. */
  function DownCasStep(s: State, t: nat, h: nat, n: nat, spurious: bool): State
    requires t < |s.threads|
  {
    if s.alloc == n && !spurious then AddHandle(Touch(s).(alloc := n + 1), t, Weak)
    else Goto(Touch(s), t, DownDecide(h, s.alloc))
  }

  function UpDecide(h: nat, n: nat): Pc {
    if n == 0 then Idle else if n < MAX then UpCas(h, n) else Panicked
  }

  function UpCasStep(s: State, t: nat, h: nat, n: nat, spurious: bool): State
    requires t < |s.threads|
  {
    if s.data == n && !spurious then AddHandle(Touch(s).(data := n + 1), t, Arc)
    else Goto(Touch(s), t, UpDecide(h, s.data))
  }

  function GmCasStep(s: State, t: nat, h: nat, stale: bool): State
    requires t < |s.threads|
  {
    if s.alloc == 1 && !stale then Goto(Touch(s), t, GmLoad(h)).(alloc := MAX, locker := By(t))
    else Goto(Touch(s), t, Idle)
  }

  function GmStoreStep(s: State, t: nat, h: nat, unique: bool): State
    requires t < |s.threads|
  {
    Goto(Touch(s), t, if unique then Mutating(h) else Idle).(alloc := 1, locker := Nobody)
  }

  function DropStep(s: State, t: nat, h: nat): State
    requires t < |s.threads| && h < |s.handles|
  {
    var s1 := Touch(s).(data := Decrement(s.data), handles := s.handles[h := Gone]);
    if s.data == 1 then Goto(s1, t, DropData).(last := By(t)) else Goto(s1, t, Idle)
  }

  /** `drop` of a `Weak`, also of the implicit one. */
  function DropAllocStep(s: State, t: nat): State
    requires t < |s.threads|
  {
    var s1 := Touch(s).(alloc := Decrement(s.alloc));
    if s.alloc == 1 then Goto(s1, t, Freeing).(freer := By(t)) else Goto(s1, t, Idle)
  }

  /** One step of thread `t`; a step that cannot be taken leaves the state as it is. */
  function Step(s: State, t: nat, c: Choice): State {
    if s.aborted || t >= |s.threads| then s else
    match s.threads[t]
    case Idle => Begin(s, t, c.op, c.h)
    case Reading(_) => Goto(TouchData(s), t, Idle)
    case Cloning(_) => CloneStep(s, t)
    case Aborting => s.(aborted := true)
    case DownLoad(h) => Goto(Touch(s), t, DownDecide(h, s.alloc))
    case DownCas(h, n) => DownCasStep(s, t, h, n, c.spurious)
    case WeakCloning(_) => WeakCloneStep(s, t)
    case UpLoad(h) => Goto(Touch(s), t, UpDecide(h, s.data))
    case UpCas(h, n) => UpCasStep(s, t, h, n, c.spurious)
    case GmCas(h) => GmCasStep(s, t, h, c.spurious)
    case GmLoad(h) => Goto(Touch(s), t, GmStore(h, s.data == 1 && !c.spurious))
    case GmStore(h, unique) => GmStoreStep(s, t, h, unique)
    case Mutating(_) => Goto(TouchData(s), t, Idle)
    case Dropping(h) => if h < |s.handles| then DropStep(s, t, h) else s
    case DropData => Goto(TouchData(s), t, DropImplicit).(dropped := s.dropped + 1)
    case DropImplicit => DropAllocStep(s, t).(last := Nobody)
    case WeakDropping(h) =>
      if h < |s.handles| then DropAllocStep(s, t).(handles := s.handles[h := Gone]) else s
    case Freeing => Goto(Touch(s), t, Idle).(freed := s.freed + 1, freer := Nobody)
    case Panicked => s
  }

  function Run(s: State, sched: seq<(nat, Choice)>): State
    decreases |sched|
  {
    if sched == [] then s else Run(Step(s, sched[0].0, sched[0].1), sched[1..])
  }

  /** `Arc::new`, in a program of `n` threads. */
  function Init(n: nat): State {
    State(1, 1, 0, 0, false, false, Nobody, Nobody, Nobody, [Arc], seq(n, _ => Idle))
  }

  // ----- The invariant -----

  /** The hypothesis on the program: outstanding handles stay below `usize::MAX - 1`. */
  ghost predicate Bounded(s: State) {
    Arcs(s.handles) + Weaks(s.handles) < MAX - 1
  }

  ghost predicate AlwaysBounded(s: State, sched: seq<(nat, Choice)>)
    decreases |sched|
  {
    Bounded(s) && (sched != [] ==> AlwaysBounded(Step(s, sched[0].0, sched[0].1), sched[1..]))
  }

  predicate Unique(pc: Pc) {
    pc.Mutating? || (pc.GmStore? && pc.unique)
  }

  /** The history variables name the right threads, and the asserts of upgrade and downgrade hold. */
  predicate PcOk(s: State, t: nat)
    requires t < |s.threads|
  {
    var pc := s.threads[t];
    && (s.locker == By(t) <==> pc.GmLoad? || pc.GmStore?)
    && (s.last == By(t) <==> pc.DropData? || pc.DropImplicit?)
    && (s.freer == By(t) <==> pc.Freeing?)
    && (pc.DropData? <==> s.last == By(t) && s.dropped == 0)
    && (pc.UpCas? ==> 0 < pc.n < MAX)
    && (pc.DownCas? ==> pc.n < MAX - 1)
    && !pc.Panicked?
  }

  /** Both counters agree with the outstanding references; T and the block end exactly once. */
  predicate Balanced(s: State, arcs: nat, weaks: nat) {
    && s.data == arcs
    && (s.last.By? ==> arcs == 0)
    && (s.locker.By? ==> arcs > 0 && weaks == 0)
    && s.alloc == (if s.locker.By? then MAX else weaks + One(arcs > 0) + One(s.last.By?))
    && s.dropped == (if arcs > 0 then 0 else if s.last.By? then s.dropped else 1)
    && s.dropped <= 1
    && s.freed + One(s.freer.By?) + One(weaks > 0 || arcs > 0 || s.last.By?) == 1
  }

  ghost predicate Inv(s: State) {
    && Balanced(s, Arcs(s.handles), Weaks(s.handles))
    && !s.bad
    && Borrows(s.handles, Loans(s.threads))
    && (forall t: nat | t < |s.threads| :: PcOk(s, t))
    && (forall t: nat | t < |s.threads| && Unique(s.threads[t]) :: Arcs(s.handles) == 1 && Weaks(s.handles) == 0)
    && (s.locker.By? ==> s.locker.t < |s.threads|)
    && (s.last.By? ==> s.last.t < |s.threads|)
    && (s.freer.By? ==> s.freer.t < |s.threads|)
  }

  lemma InitInv(n: nat)
    ensures Inv(Init(n))
  {
    assert Init(n).handles[1..] == [];
  }

  /** A thread that works through a handle keeps every other thread from being alone. */
  lemma NotAlone(s: State, t: nat)
    requires Inv(s) && t < |s.threads|
    requires !LoanOf(s.threads[t]).NoLoan?
    ensures forall u: nat | u < |s.threads| && u != t :: !Unique(s.threads[u])
  {
    forall u: nat | u < |s.threads| && u != t
      ensures !Unique(s.threads[u])
    {
      if Unique(s.threads[u]) { TwoAlive(s.handles, Loans(s.threads), u, t); }
    }
  }

  /** While a thread works through a handle the block exists, and T too if it is an `Arc`. */
  lemma Safe(s: State, t: nat)
    requires Inv(s) && t < |s.threads|
    ensures !LoanOf(s.threads[t]).NoLoan? ==> Touch(s) == s && Arcs(s.handles) + Weaks(s.handles) > 0
    ensures LoanOf(s.threads[t]).Shared? || LoanOf(s.threads[t]).Exclusive? ==>
      LoanOf(s.threads[t]).kind == Arc ==> TouchData(s) == s && Arcs(s.handles) > 0
    ensures s.threads[t].DropData? || s.threads[t].DropImplicit? || s.threads[t].Freeing? ==> Touch(s) == s
    ensures s.threads[t].DropData? ==> TouchData(s) == s
  {
    assert PcOk(s, t);
    if !LoanOf(s.threads[t]).NoLoan? {
      Alive(s.handles, Loans(s.threads), t);
    }
  }

  /** `s'` differs from `s` only in what belongs to thread `t`. */
  predicate OnlyOf(t: nat, s: State, s': State) {
    && t < |s.threads| == |s'.threads| && s'.threads == s.threads[t := s'.threads[t]]
    && SameForOthers(s.locker, s'.locker, t)
    && SameForOthers(s.last, s'.last, t)
    && SameForOthers(s.freer, s'.freer, t)
    && (s'.dropped == s.dropped || s.last == By(t))
  }

  lemma OthersKept(t: nat, s: State, s': State)
    requires forall u: nat | u < |s.threads| :: PcOk(s, u)
    requires OnlyOf(t, s, s')
    ensures forall u: nat | u < |s.threads| && u != t :: PcOk(s', u)
  {
    forall u: nat | u < |s.threads| && u != t
      ensures PcOk(s', u)
    {
      assert PcOk(s, u);
    }
  }

  /** Steps of thread `t` that only move its program counter. */
  lemma InvMove(s: State, t: nat, pc: Pc)
    requires Inv(s) && t < |s.threads| && MayHold(s.handles, Loans(s.threads), t, LoanOf(pc))
    requires PcOk(Goto(s, t, pc), t)
    requires Unique(pc) ==> Arcs(s.handles) == 1 && Weaks(s.handles) == 0
    ensures Inv(Goto(s, t, pc))
  {
    LoanMoved(s.handles, Loans(s.threads), t, Loans(s.threads[t := pc]));
    OthersKept(t, s, Goto(s, t, pc));
  }

  predicate Weightless(pc: Pc) {
    !pc.GmLoad? && !pc.GmStore? && !pc.DropData? && !pc.DropImplicit? && !pc.Freeing?
  }

  /** Steps that increment a counter for a new handle. */
  lemma InvAdd(s: State, t: nat, kind: Handle)
    requires Inv(s) && t < |s.threads| && !LoanOf(s.threads[t]).NoLoan? && Weightless(s.threads[t])
    requires kind == Arc || kind == Weak || kind == Stray(1, 0, t) || kind == Stray(0, 1, t)
    requires ArcShare(kind) == 1 ==> Arcs(s.handles) > 0
    requires WeakShare(kind) == 1 ==> s.locker.Nobody? && Weaks(s.handles) + Arcs(s.handles) > 0
    ensures Inv(AddHandle(s, t, kind).(data := s.data + ArcShare(kind), alloc := s.alloc + WeakShare(kind)))
  {
    var s' := AddHandle(s, t, kind).(data := s.data + ArcShare(kind), alloc := s.alloc + WeakShare(kind));
    assert PcOk(s, t);
    NotAlone(s, t);
    LoanMoved(s.handles, Loans(s.threads), t, Loans(s'.threads));
    Created(s.handles, Loans(s'.threads), kind);
    Added(s.handles, kind);
    OthersKept(t, s, s');
  }

  lemma InvClone(s: State, t: nat)
    requires Inv(s) && Bounded(s) && t < |s.threads| && s.threads[t].Cloning?
    ensures Inv(CloneStep(s, t))
  {
    Safe(s, t);
    InvAdd(s, t, if s.data > MAX / 2 then Stray(1, 0, t) else Arc);
  }

  lemma InvWeakClone(s: State, t: nat)
    requires Inv(s) && Bounded(s) && t < |s.threads| && s.threads[t].WeakCloning?
    ensures Inv(WeakCloneStep(s, t))
  {
    Safe(s, t);
    Alive(s.handles, Loans(s.threads), t);
    var kind := if s.alloc > MAX / 2 then Stray(0, 1, t) else Weak;
    InvAdd(s, t, kind);
    assert WeakCloneStep(s, t) == AddHandle(s, t, kind).(data := s.data + 0, alloc := s.alloc + 1);
  }

  lemma InvDownLoad(s: State, t: nat, h: nat)
    requires Inv(s) && Bounded(s) && t < |s.threads|
    requires s.threads[t] == DownLoad(h) || (s.threads[t].DownCas? && s.threads[t].h == h)
    ensures Inv(Goto(Touch(s), t, DownDecide(h, s.alloc)))
  {
    assert PcOk(s, t);
    Safe(s, t);
    InvMove(s, t, DownDecide(h, s.alloc));
  }

  /** A downgrade that read the current value finds the counter unlocked. */
  lemma Unlocked(s: State, t: nat)
    requires Inv(s) && Bounded(s) && t < |s.threads| && s.threads[t].DownCas? && s.alloc == s.threads[t].n
    ensures s.locker.Nobody? && Arcs(s.handles) > 0 && s.freed == 0
  {
    assert PcOk(s, t);
    Safe(s, t);
  }

  lemma InvDownCas(s: State, t: nat, h: nat, n: nat, spurious: bool)
    requires Inv(s) && Bounded(s) && t < |s.threads| && s.threads[t] == DownCas(h, n)
    ensures Inv(DownCasStep(s, t, h, n, spurious))
  {
    if s.alloc == n && !spurious {
      Unlocked(s, t);
      InvAdd(s, t, Weak);
      assert DownCasStep(s, t, h, n, spurious) == AddHandle(s, t, Weak).(data := s.data + 0, alloc := s.alloc + 1);
    } else {
      InvDownLoad(s, t, h);
    }
  }

  lemma InvUpLoad(s: State, t: nat, h: nat)
    requires Inv(s) && Bounded(s) && t < |s.threads|
    requires (s.threads[t].UpLoad? || s.threads[t].UpCas?) && s.threads[t].h == h
    ensures Inv(Goto(Touch(s), t, UpDecide(h, s.data)))
  {
    assert PcOk(s, t);
    Safe(s, t);
    InvMove(s, t, UpDecide(h, s.data));
  }

  lemma InvUpCas(s: State, t: nat, h: nat, n: nat, spurious: bool)
    requires Inv(s) && Bounded(s) && t < |s.threads| && s.threads[t] == UpCas(h, n)
    ensures Inv(UpCasStep(s, t, h, n, spurious))
  {
    if s.data == n && !spurious {
      assert PcOk(s, t);
      Safe(s, t);
      InvAdd(s, t, Arc);
      assert UpCasStep(s, t, h, n, spurious) == AddHandle(s, t, Arc).(data := s.data + 1, alloc := s.alloc + 0);
    } else {
      InvUpLoad(s, t, h);
    }
  }

  lemma InvGetMut(s: State, t: nat, c: Choice)
    requires Inv(s) && Bounded(s) && !s.aborted && t < |s.threads|
    requires s.threads[t].GmCas? || s.threads[t].GmLoad? || s.threads[t].GmStore?
    ensures Inv(Step(s, t, c))
  {
    var s' := Step(s, t, c);
    assert PcOk(s, t);
    Safe(s, t);
    if s.threads[t].GmLoad? || (s.threads[t].GmCas? && (s.alloc != 1 || c.spurious)) {
      InvMove(s, t, s'.threads[t]);
    } else {
      LoanMoved(s.handles, Loans(s.threads), t, Loans(s'.threads));
      OthersKept(t, s, s');
    }
  }

  /** Giving up the handle of a drop. */
  lemma Dropped(s: State, t: nat, h: nat)
    requires Inv(s) && t < |s.threads| && (s.threads[t] == Dropping(h) || s.threads[t] == WeakDropping(h))
    ensures h < |s.handles| && Borrows(s.handles[h := Gone], Loans(s.threads)[t := NoLoan])
    ensures s.threads[t].Dropping? ==>
      Arcs(s.handles[h := Gone]) + 1 == Arcs(s.handles) && Weaks(s.handles[h := Gone]) == Weaks(s.handles)
    ensures s.threads[t].WeakDropping? ==>
      Arcs(s.handles[h := Gone]) == Arcs(s.handles) && Weaks(s.handles[h := Gone]) + 1 == Weaks(s.handles)
    ensures s.locker.By? ==> Arcs(s.handles) >= 2
  {
    Alive(s.handles, Loans(s.threads), t);
    assert PcOk(s, t);
    if s.locker.By? {
      assert PcOk(s, s.locker.t);
      TwoAlive(s.handles, Loans(s.threads), s.locker.t, t);
    }
    GivenUp(s.handles, Loans(s.threads), t, Gone);
    Changed(s.handles, h, Gone);
  }

  lemma InvDrop(s: State, t: nat, h: nat)
    requires Inv(s) && Bounded(s) && t < |s.threads| && s.threads[t] == Dropping(h)
    ensures h < |s.handles| && Inv(DropStep(s, t, h))
  {
    assert PcOk(s, t);
    Dropped(s, t, h);
    var s' := DropStep(s, t, h);
    Safe(s, t);
    NotAlone(s, t);
    assert Loans(s'.threads) == Loans(s.threads)[t := NoLoan];
    OthersKept(t, s, s');
  }

  lemma InvDropWeak(s: State, t: nat, h: nat)
    requires Inv(s) && Bounded(s) && t < |s.threads| && s.threads[t] == WeakDropping(h)
    ensures h < |s.handles| && Inv(DropAllocStep(s, t).(handles := s.handles[h := Gone]))
  {
    assert PcOk(s, t);
    Dropped(s, t, h);
    var s' := DropAllocStep(s, t).(handles := s.handles[h := Gone]);
    Safe(s, t);
    NotAlone(s, t);
    assert Loans(s'.threads) == Loans(s.threads)[t := NoLoan];
    OthersKept(t, s, s');
  }

  lemma InvFinish(s: State, t: nat, c: Choice)
    requires Inv(s) && Bounded(s) && !s.aborted && t < |s.threads|
    requires s.threads[t].DropData? || s.threads[t].DropImplicit? || s.threads[t].Freeing?
    ensures Inv(Step(s, t, c))
  {
    var s' := Step(s, t, c);
    assert PcOk(s, t);
    Safe(s, t);
    LoanMoved(s.handles, Loans(s.threads), t, Loans(s'.threads));
    OthersKept(t, s, s');
  }

  lemma InvPlain(s: State, t: nat, c: Choice)
    requires Inv(s) && Bounded(s) && !s.aborted && t < |s.threads|
    requires s.threads[t].Idle? || s.threads[t].Reading? || s.threads[t].Mutating?
    ensures Inv(Step(s, t, c))
  {
    assert PcOk(s, t);
    if !s.threads[t].Idle? {
      Safe(s, t);
      InvMove(s, t, Idle);
    } else if Begin(s, t, c.op, c.h) != s {
      InvMove(s, t, First(c.op, c.h));
    }
  }

  lemma InvAbort(s: State)
    requires Inv(s)
    ensures Inv(s.(aborted := true))
  {
    assert forall u: nat | u < |s.threads| :: PcOk(s, u) ==> PcOk(s.(aborted := true), u);
  }

  lemma StepInv(s: State, t: nat, c: Choice)
    requires Inv(s) && Bounded(s)
    ensures Inv(Step(s, t, c))
  {
    if !s.aborted && t < |s.threads| {
      match s.threads[t]
      case Idle | Reading(_) | Mutating(_) => InvPlain(s, t, c);
      case Cloning(_) => InvClone(s, t);
      case DownLoad(h) => InvDownLoad(s, t, h);
      case DownCas(h, n) => InvDownCas(s, t, h, n, c.spurious);
      case WeakCloning(_) => InvWeakClone(s, t);
      case UpLoad(h) => InvUpLoad(s, t, h);
      case UpCas(h, n) => InvUpCas(s, t, h, n, c.spurious);
      case GmCas(_) | GmLoad(_) | GmStore(_, _) => InvGetMut(s, t, c);
      case Dropping(h) => InvDrop(s, t, h);
      case WeakDropping(h) => InvDropWeak(s, t, h);
      case DropData | DropImplicit | Freeing => InvFinish(s, t, c);
      case Aborting => InvAbort(s);
      case Panicked =>
    }
  }

  lemma {:induction false} RunInv(s: State, sched: seq<(nat, Choice)>)
    requires Inv(s) && AlwaysBounded(s, sched)
    ensures Inv(Run(s, sched)) && Bounded(Run(s, sched))
    decreases |sched|
  {
    if sched == [] {
    } else {
      StepInv(s, sched[0].0, sched[0].1);
      RunInv(Step(s, sched[0].0, sched[0].1), sched[1..]);
    }
  }

  // ----- What every run keeps -----

  /** Thread `t` is between the compare-exchange of get_mut and its store. */
  predicate HoldsLock(s: State, t: nat) {
    t < |s.threads| && (s.threads[t].GmLoad? || s.threads[t].GmStore?)
  }

  /** The last dropper has not yet dropped the implicit weak reference. */
  predicate OwesImplicit(s: State) {
    exists t: nat | t < |s.threads| :: s.threads[t].DropData? || s.threads[t].DropImplicit?
  }

  /**
   The first counter is the number of outstanding `Arc`s. The second is the number of outstanding
   `Weak`s plus the implicit one, or `usize::MAX` exactly while one thread is inside get_mut, and then
   there is no `Weak`.
   */
  lemma CountersAreExact(n: nat, sched: seq<(nat, Choice)>)
    requires AlwaysBounded(Init(n), sched)
    ensures var s := Run(Init(n), sched);
      && s.data == Arcs(s.handles)
      && (s.alloc == MAX <==> exists t: nat :: HoldsLock(s, t))
      && (s.alloc != MAX ==> s.alloc == Weaks(s.handles) + One(Arcs(s.handles) > 0 || OwesImplicit(s)))
      && (s.alloc == MAX ==> Weaks(s.handles) == 0 && Arcs(s.handles) > 0)
      && (forall t: nat, u: nat | HoldsLock(s, t) && HoldsLock(s, u) :: t == u)
  {
    InitInv(n);
    RunInv(Init(n), sched);
    var s := Run(Init(n), sched);
    forall t: nat, u: nat | HoldsLock(s, t) && HoldsLock(s, u)
      ensures t == u
    {
      assert PcOk(s, t) && PcOk(s, u);
    }
    if t: nat :| HoldsLock(s, t) {
      assert PcOk(s, t);
    }
    if s.locker.By? {
      assert PcOk(s, s.locker.t) && HoldsLock(s, s.locker.t);
    }
    assert OwesImplicit(s) <==> s.last.By? by {
      if s.last.By? { assert PcOk(s, s.last.t); }
      if t: nat :| t < |s.threads| && (s.threads[t].DropData? || s.threads[t].DropImplicit?) {
        assert PcOk(s, t);
      }
    }
  }

  ghost predicate OnlyHandle(s: State) {
    Arcs(s.handles) + Weaks(s.handles) == 1
  }

  /** How a step of get_mut by thread `t`, `stale` or not, goes on from `pc` to `pc'`. */
  ghost predicate DecidesOnSnapshot(s: State, pc: Pc, pc': Pc, stale: bool) {
    && (pc.GmCas? ==> pc' == Idle || (pc' == GmLoad(pc.h) && !stale))
    && (pc.GmCas? && pc' == Idle ==> !OnlyHandle(s) || stale)
    && (pc.GmLoad? ==> pc' == GmStore(pc.h, OnlyHandle(s) && !stale))
    && (pc.GmStore? ==> pc' == if pc.unique then Mutating(pc.h) else Idle)
    && ((pc.GmStore? && pc.unique) || pc.Mutating? ==> OnlyHandle(s) && pc.h < |s.handles| && s.handles[pc.h] == Arc)
  }

  lemma StepDecides(s: State, t: nat, c: Choice)
    requires Inv(s) && Bounded(s) && t < |s.threads| && !s.aborted
    ensures t < |Step(s, t, c).threads| && DecidesOnSnapshot(s, s.threads[t], Step(s, t, c).threads[t], c.spurious)
  {
    var loans := Loans(s.threads);
    assert PcOk(s, t);
    if !loans[t].NoLoan? {
      Alive(s.handles, loans, t);
    }
    if s.threads[t].GmCas? && s.locker.By? {
      assert PcOk(s, s.locker.t);
      TwoAlive(s.handles, loans, t, s.locker.t);
    }
  }

  /**
   get_mut reads its two counters at different moments. Unless it reads a stale value, which can only refuse,
   it answers None at the compare-exchange only if there is another handle; otherwise it decides at the load,
   exactly by whether the caller's `Arc` is the only handle. From a positive decision to the end of the
   returned borrow it stays so.
   */
  lemma GetMutDecidesOnSnapshot(n: nat, sched: seq<(nat, Choice)>, t: nat, c: Choice)
    requires AlwaysBounded(Init(n), sched)
    requires var s := Run(Init(n), sched); t < |s.threads| && !s.aborted
    ensures var s := Run(Init(n), sched); var s' := Step(s, t, c);
      t < |s'.threads| && DecidesOnSnapshot(s, s.threads[t], s'.threads[t], c.spurious)
  {
    InitInv(n);
    RunInv(Init(n), sched);
    StepDecides(Run(Init(n), sched), t, c);
  }

  /** While the borrow returned by get_mut lives, no other thread works through any handle. */
  lemma MutableBorrowIsAlone(n: nat, sched: seq<(nat, Choice)>, t: nat, u: nat)
    requires AlwaysBounded(Init(n), sched)
    requires var s := Run(Init(n), sched);
      t < |s.threads| && u < |s.threads| && u != t && s.threads[t].Mutating?
    ensures LoanOf(Run(Init(n), sched).threads[u]) == NoLoan
  {
    InitInv(n);
    RunInv(Init(n), sched);
    var s := Run(Init(n), sched);
    if !LoanOf(s.threads[u]).NoLoan? {
      NotAlone(s, u);
    }
  }

  /**
   T is dropped and the block freed at most once, in this order and only when nothing refers to them;
   no step has touched either too late, and no assert has failed.
   */
  lemma TwoStageLifetime(n: nat, sched: seq<(nat, Choice)>)
    requires AlwaysBounded(Init(n), sched)
    ensures var s := Run(Init(n), sched);
      && !s.bad
      && s.freed <= s.dropped <= 1
      && (s.dropped == 1 ==> Arcs(s.handles) == 0)
      && (s.freed == 1 ==> Arcs(s.handles) + Weaks(s.handles) == 0)
      && (forall t: nat | t < |s.threads| :: !s.threads[t].Panicked?)
      && (forall t: nat | t < |s.threads| && (s.threads[t].Reading? || s.threads[t].Mutating?) :: s.dropped == 0)
      && (forall t: nat | t < |s.threads| && !LoanOf(s.threads[t]).NoLoan? :: s.freed == 0)
  {
    InitInv(n);
    RunInv(Init(n), sched);
    var s := Run(Init(n), sched);
    forall t: nat | t < |s.threads|
      ensures !s.threads[t].Panicked? && (s.threads[t].Reading? || s.threads[t].Mutating? ==> s.dropped == 0)
      ensures !LoanOf(s.threads[t]).NoLoan? ==> s.freed == 0
    {
      assert PcOk(s, t);
      Safe(s, t);
    }
  }

  /** No operation is in flight and every handle is gone. */
  predicate AllGone(s: State) {
    && (forall t: nat | t < |s.threads| :: s.threads[t] == Idle)
    && (forall h: nat | h < |s.handles| :: s.handles[h] == Gone)
  }

  /** If no handle and no operation is left, T was dropped and the block was freed. */
  lemma NothingLeaks(n: nat, sched: seq<(nat, Choice)>)
    requires AlwaysBounded(Init(n), sched) && AllGone(Run(Init(n), sched))
    ensures var s := Run(Init(n), sched); s.dropped == 1 && s.freed == 1
  {
    InitInv(n);
    RunInv(Init(n), sched);
    var s := Run(Init(n), sched);
    SumConstant(s.handles, 0, ArcShare);
    SumConstant(s.handles, 0, WeakShare);
    assert s.last.By? ==> PcOk(s, s.last.t);
    assert s.freer.By? ==> PcOk(s, s.freer.t);
  }

  lemma ZeroStays(s: State, t: nat, c: Choice)
    requires Inv(s)
    ensures s.data == 0 ==> Step(s, t, c).data == 0
  {
    if t < |s.threads| {
      assert PcOk(s, t);
      if s.threads[t].Cloning? || s.threads[t].Dropping? {
        Alive(s.handles, Loans(s.threads), t);
      }
    }
  }

  /** Few kinds of step concern the ends of the two lifetimes. */
  lemma QuietStep(s: State, t: nat, c: Choice)
    requires t < |s.threads|
    ensures var s' := Step(s, t, c); var pc := s.threads[t];
      && (!pc.Dropping? && !pc.DropData? ==> s'.dropped == s.dropped)
      && (!pc.Dropping? && !pc.DropImplicit? ==> s'.last == s.last)
      && (!pc.DropImplicit? && !pc.WeakDropping? && !pc.Freeing? ==> s'.freer == s.freer && s'.freed == s.freed)
  {
    if !s.aborted {
      match s.threads[t]
      case Idle => assert Step(s, t, c) == Begin(s, t, c.op, c.h);
      case Cloning(_) => assert Step(s, t, c) == CloneStep(s, t);
      case DownCas(h, n) => assert Step(s, t, c) == DownCasStep(s, t, h, n, c.spurious);
      case WeakCloning(_) => assert Step(s, t, c) == WeakCloneStep(s, t);
      case UpCas(h, n) => assert Step(s, t, c) == UpCasStep(s, t, h, n, c.spurious);
      case GmCas(h) => assert Step(s, t, c) == GmCasStep(s, t, h, c.spurious);
      case GmStore(h, unique) => assert Step(s, t, c) == GmStoreStep(s, t, h, unique);
      case _ =>
    }
  }

  lemma DataStep(s: State, t: nat, c: Choice)
    requires t < |s.threads| ==> PcOk(s, t)
    ensures var s' := Step(s, t, c);
      && (s'.last != s.last && s'.last.By? ==> s'.last.t == t && s.data == 1 && s'.data == 0)
      && (s'.dropped > s.dropped ==> s.last == By(t))
  {
    if t < |s.threads| && !s.threads[t].Dropping? {
      QuietStep(s, t, c);
    }
  }

  lemma BlockStep(s: State, t: nat, c: Choice)
    requires Balanced(s, Arcs(s.handles), Weaks(s.handles)) && (t < |s.threads| ==> PcOk(s, t))
    ensures var s' := Step(s, t, c);
      && (s'.freer != s.freer && s'.freer.By? ==> s'.freer.t == t && s.alloc == 1 && s'.alloc == 0)
      && (s'.freed > s.freed ==> s.freer == By(t) && s.dropped == 1)
  {
    if t < |s.threads| && !s.threads[t].DropImplicit? && !s.threads[t].WeakDropping? && !s.threads[t].Freeing? {
      QuietStep(s, t, c);
    }
  }

  lemma UpgradeStep(s: State, t: nat, c: Choice)
    requires Balanced(s, Arcs(s.handles), Weaks(s.handles)) && t < |s.threads| && PcOk(s, t)
    requires s.threads[t].UpCas? && Step(s, t, c).data > s.data
    ensures s.dropped == 0
  {
  }

  /** What a step of thread `t` from `s` to `s'` may do to the two lifetimes. */
  predicate LifetimeStep(s: State, s': State, t: nat) {
    && (s.data == 0 ==> s'.data == 0)
    && (s'.last != s.last && s'.last.By? ==> s'.last.t == t && s.data == 1 && s'.data == 0)
    && (s'.dropped > s.dropped ==> s.last == By(t))
    && (s'.freer != s.freer && s'.freer.By? ==> s'.freer.t == t && s.alloc == 1 && s'.alloc == 0)
    && (s'.freed > s.freed ==> s.freer == By(t) && s.dropped == 1)
    && (t < |s.threads| && s.threads[t].UpCas? && s'.data > s.data ==> s.dropped == 0)
  }

  lemma StepEndsLifetimes(s: State, t: nat, c: Choice)
    requires Inv(s)
    ensures LifetimeStep(s, Step(s, t, c), t)
  {
    ZeroStays(s, t, c);
    assert t < |s.threads| ==> PcOk(s, t);
    DataStep(s, t, c);
    BlockStep(s, t, c);
    if t < |s.threads| && s.threads[t].UpCas? && Step(s, t, c).data > s.data {
      UpgradeStep(s, t, c);
    }
  }

  /** Who ends the two lifetimes, and that the first count never leaves 0 again. */
  lemma WhoEndsTheLifetimes(n: nat, sched: seq<(nat, Choice)>, t: nat, c: Choice)
    requires AlwaysBounded(Init(n), sched)
    ensures LifetimeStep(Run(Init(n), sched), Step(Run(Init(n), sched), t, c), t)
  {
    InitInv(n);
    RunInv(Init(n), sched);
    StepEndsLifetimes(Run(Init(n), sched), t, c);
  }
}
