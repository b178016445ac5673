/**
 The simple `Arc` and `Weak` with two counters under the weak memory model of `ArcClocks`, with the clocks
 of `TwoClocks`.

 - A read-modify-write reads the newest message and passes its clock on; if it is a Release, it adds the
   thread's clock. No operation on the counters is an Acquire.
 - A Relaxed load, and the load of a compare-exchange that fails, may return any message that is not
   older than the thread's clock.
 - An Acquire fence adds the clocks of the messages that the thread has read.
 - Borrows carry edges through the `base` and `ended` clocks of a handle.
 */
module SimpleClocks {
  import opened Basics
  import opened References
  import opened Usize
  import opened TwoClocks

  /**
   A handle appears with its share in the second counter. `Half` is an `Arc` without its share in the first
   one, inside clone or drop; `Lost` is an `Arc` whose clone is about to abort.
   */
  datatype Kind = Arc | Weak | Half | Lost

  datatype Handle = Handle(kind: Kind, status: Status, base: Clock, ended: Clock)

  datatype Pc =
    | Calm                          // no operation in flight; shared borrows may be alive
    | Cloning(h: nat, g: nat)       // the new handle `g` is not counted in the first counter yet
    | UpLoad(h: nat)
    | UpCas(h: nat, n: nat)
    | UpAlloc(h: nat)               // the new `Arc` is counted in the first counter only
    | Dropping(h: nat)
    | DropFence(h: nat)             // took the first count from 1 to 0
    | DropT(h: nat)
    | DropAlloc(h: nat)             // about to drop a `Weak`, also the one inside a dropped `Arc`
    | FreeFence                     // took the second count from 1 to 0
    | Freeing
    | GmLoad(h: nat)
    | GmFence(h: nat)               // saw 1
    | Mutating(h: nat)              // the `&mut T` returned by get_mut is alive
    | Aborting

  datatype Thread = Thread(pc: Pc, clock: Clock, pending: Clock, shared: set<nat>)

  /**
   `data` and `alloc` are the modification orders of the two counters. Accesses to the block are numbered
   below `events`; `touched` are those to T, and `writes` those that write T. `last` is the thread that owes
   the drop of T.
   */
  datatype State = State(data: seq<Msg>, alloc: seq<Msg>, events: nat, touched: set<nat>, writes: set<nat>,
                         dropped: nat, freed: nat, bad: bool, aborted: bool, last: Role,
                         handles: seq<Handle>, threads: seq<Thread>)

  datatype Action =
    | BeginShared(h: nat) | EndShared(h: nat) | Read(h: nat)
    | Clone(h: nat)
    | NewWeak(h: nat)      // downgrade of an `Arc` or clone of a `Weak`
    | BeginUpgrade(h: nat)
    | BeginDrop(h: nat) | BeginDropWeak(h: nat) | BeginGetMut(h: nat)
    | Write | EndMut
    | Exchange             // a compare-exchange that succeeds
    | Continue(i: nat)     // any other next step of the operation in flight; a load reads message `i`

  /** The drop of a handle, from its beginning to its last decrement. */
  predicate Leaving(pc: Pc) {
    pc.Dropping? || pc.DropFence? || pc.DropT? || pc.DropAlloc?
  }

  /** The calls of get_mut and the borrow that it returns. */
  predicate Asking(pc: Pc) {
    pc.GmLoad? || pc.GmFence? || pc.Mutating?
  }

  /** The call works through a borrowed handle. */
  predicate Through(pc: Pc) {
    pc.Cloning? || pc.UpLoad? || pc.UpCas? || pc.UpAlloc?
  }

  /** The call has handle `x` to itself. */
  predicate Owns(pc: Pc, x: nat) {
    (pc.Cloning? && pc.g == x) || ((Leaving(pc) || Asking(pc)) && pc.h == x)
  }

  predicate Uses(th: Thread, h: nat) {
    h in th.shared || Owns(th.pc, h)
  }

  predicate IsLive(s: State, h: nat, kind: Kind) {
    h < |s.handles| && s.handles[h].status == Live && s.handles[h].kind == kind
  }

  predicate Usable(s: State, h: nat) {
    IsLive(s, h, Arc) || IsLive(s, h, Weak)
  }

  predicate CanShare(s: State, h: nat) {
    Usable(s, h) && forall u | 0 <= u < |s.threads| :: !Owns(s.threads[u].pc, h)
  }

  predicate CanOwn(s: State, h: nat, kind: Kind) {
    IsLive(s, h, kind) && forall u | 0 <= u < |s.threads| :: !Uses(s.threads[u], h)
  }

  // ----- Steps -----

  function Put(s: State, t: nat, th: Thread): State
    requires t < |s.threads|
  {
    s.(threads := s.threads[t := th])
  }

  function Goto(s: State, t: nat, pc: Pc): State
    requires t < |s.threads|
  {
    Put(s, t, s.threads[t].(pc := pc))
  }

  function PutHandle(s: State, h: nat, x: Handle): State
    requires h < |s.handles|
  {
    s.(handles := s.handles[h := x])
  }

  function LastData(s: State): Msg
    requires s.data != []
  {
    s.data[|s.data| - 1]
  }

  function LastAlloc(s: State): Msg
    requires s.alloc != []
  {
    s.alloc[|s.alloc| - 1]
  }

  /** Thread `t` accesses the block: the access is numbered and joins the thread's clock. */
  function Touch(s: State, t: nat): State
    requires t < |s.threads|
  {
    var th := s.threads[t];
    Put(s, t, th.(clock := Tick(th.clock, s.events))).(events := s.events + 1, bad := s.bad || s.freed > 0)
  }

  function BeginSharedStep(s: State, t: nat, h: nat): State
    requires t < |s.threads|
  {
    if !CanShare(s, h) then s else
    var th := s.threads[t];
    Put(s, t, th.(clock := Join(th.clock, s.handles[h].base), shared := th.shared + {h}))
  }

  function EndSharedStep(s: State, t: nat, h: nat): State
    requires t < |s.threads|
  {
    var th := s.threads[t];
    if h !in th.shared || h >= |s.handles| then s else
    var x := s.handles[h];
    PutHandle(Put(s, t, th.(shared := th.shared - {h})), h, x.(ended := Join(x.ended, th.clock)))
  }

  function BeginOwnStep(s: State, t: nat, h: nat, kind: Kind, pc: Pc): State
    requires t < |s.threads|
  {
    if !CanOwn(s, h, kind) then s else
    var th := s.threads[t];
    Put(s, t, th.(pc := pc, clock := Join(Join(th.clock, s.handles[h].base), s.handles[h].ended)))
  }

  /** An exclusive use ends: later borrows of the handle come after it. */
  function EndOwn(s: State, t: nat, h: nat): State
    requires t < |s.threads|
  {
    if h >= |s.handles| then s else
    var th := s.threads[t];
    PutHandle(Put(s, t, th.(pc := Calm)), h, s.handles[h].(base := th.clock, ended := NEVER))
  }

  /** A read of T: it races with a write that does not happen before it. */
  function ReadStep(s: State, t: nat, h: nat): State
    requires t < |s.threads|
  {
    if h !in s.threads[t].shared || !IsLive(s, h, Arc) then s else
    Touch(s, t).(touched := s.touched + {s.events},
                 bad := s.bad || s.freed > 0 || s.dropped > 0 || !(s.writes <= s.threads[t].clock.events))
  }

  /** A write through the `&mut T`: it races with every access to T that does not happen before it. */
  function WriteStep(s: State, t: nat): State
    requires t < |s.threads|
  {
    Touch(s, t).(touched := s.touched + {s.events}, writes := s.writes + {s.events},
                 bad := s.bad || s.freed > 0 || s.dropped > 0 || !(s.touched <= s.threads[t].clock.events))
  }

  /** The drop of T, like a write. */
  function DropTStep(s: State, t: nat, h: nat): State
    requires t < |s.threads|
  {
    Goto(Touch(s, t), t, DropAlloc(h))
    .(dropped := s.dropped + 1, last := Nobody,
      bad := s.bad || s.freed > 0 || s.dropped > 0 || !(s.touched <= s.threads[t].clock.events))
  }

  /** A load of message `i` of the first counter. */
  function LoadData(s: State, t: nat, i: nat): State
    requires t < |s.threads| && i < |s.data|
  {
    var th := s.threads[t];
    Put(s, t, th.(clock := th.clock.(data := i), pending := Join(th.pending, s.data[i].clock)))
  }

  function LoadAlloc(s: State, t: nat, i: nat): State
    requires t < |s.threads| && i < |s.alloc|
  {
    var th := s.threads[t];
    Put(s, t, th.(clock := th.clock.(alloc := i), pending := Join(th.pending, s.alloc[i].clock)))
  }

  /** A read-modify-write of the first counter. */
  function ChangeData(s: State, t: nat, value: nat, release: bool): State
    requires t < |s.threads| && s.data != []
  {
    var th := s.threads[t];
    var prev := LastData(s);
    var clock := th.clock.(data := |s.data|);
    Put(s, t, th.(clock := clock, pending := Join(th.pending, prev.clock)))
    .(data := s.data + [Msg(value, if release then Join(prev.clock, clock) else prev.clock)])
  }

  function ChangeAlloc(s: State, t: nat, value: nat, release: bool): State
    requires t < |s.threads| && s.alloc != []
  {
    var th := s.threads[t];
    var prev := LastAlloc(s);
    var clock := th.clock.(alloc := |s.alloc|);
    Put(s, t, th.(clock := clock, pending := Join(th.pending, prev.clock)))
    .(alloc := s.alloc + [Msg(value, if release then Join(prev.clock, clock) else prev.clock)])
  }

  /** The Relaxed increment of `Weak::clone`, also inside `Arc::clone` and upgrade: a new handle of thread `t`. */
  function WeakCloneStep(s: State, t: nat, kind: Kind, pc: Pc): State
    requires t < |s.threads| && s.alloc != []
  {
    var n := LastAlloc(s).value;
    var s1 := ChangeAlloc(Touch(s, t), t, Increment(n), false);
    var status := if n > MAX / 2 then Doomed else Live;
    Goto(s1, t, if n > MAX / 2 then Aborting else pc)
    .(handles := s.handles + [Handle(kind, status, s1.threads[t].clock, NEVER)])
  }

  function CloneStep(s: State, t: nat, h: nat): State
    requires t < |s.threads| && s.alloc != []
  {
    if h in s.threads[t].shared && IsLive(s, h, Arc) then WeakCloneStep(s, t, Half, Cloning(h, |s.handles|)) else s
  }

  function NewWeakStep(s: State, t: nat, h: nat): State
    requires t < |s.threads| && s.alloc != []
  {
    if h in s.threads[t].shared then WeakCloneStep(s, t, Weak, Calm) else s
  }

  /** The Relaxed increment of the first counter in `Arc::clone`. */
  function CloneDataStep(s: State, t: nat, g: nat): State
    requires t < |s.threads| && s.data != []
  {
    if g >= |s.handles| then s else
    var n := LastData(s).value;
    var s1 := ChangeData(Touch(s, t), t, Increment(n), false);
    var kind := if n > MAX / 2 then Lost else Arc;
    PutHandle(Goto(s1, t, if n > MAX / 2 then Aborting else Calm), g,
              s.handles[g].(kind := kind, base := s1.threads[t].clock))
  }

  function BeginUpgradeStep(s: State, t: nat, h: nat): State
    requires t < |s.threads|
  {
    if h in s.threads[t].shared && IsLive(s, h, Weak) then Goto(s, t, UpLoad(h)) else s
  }

  function UpDecide(h: nat, n: nat): Pc {
    if n == 0 then Calm else UpCas(h, n)
  }

  /** The load of upgrade, also that of a failed exchange; its assert must not see `usize::MAX`. */
  function UpLoadStep(s: State, t: nat, h: nat, i: nat): State
    requires t < |s.threads|
  {
    if !(s.threads[t].clock.data <= i < |s.data|) then s else
    Goto(LoadData(Touch(s, t), t, i), t, UpDecide(h, s.data[i].value))
    .(bad := s.bad || s.freed > 0 || s.data[i].value == MAX)
  }

  /** The Relaxed exchange of upgrade. */
  function UpExchange(s: State, t: nat, h: nat, n: nat): State
    requires t < |s.threads| && s.data != []
  {
    if LastData(s).value != n then s else Goto(ChangeData(Touch(s, t), t, n + 1, false), t, UpAlloc(h))
  }

  /** The Release decrement of the first counter. */
  function DropStep(s: State, t: nat, h: nat): State
    requires t < |s.threads| && s.data != []
  {
    if h >= |s.handles| then s else
    var n := LastData(s).value;
    var s1 := ChangeData(Touch(s, t), t, Decrement(n), true);
    PutHandle(Goto(s1, t, if n == 1 then DropFence(h) else DropAlloc(h)), h, s.handles[h].(kind := Half))
    .(last := if n == 1 then By(t) else s.last)
  }

  /** The Release decrement of the second counter. */
  function DropAllocStep(s: State, t: nat, h: nat): State
    requires t < |s.threads| && s.alloc != []
  {
    if h >= |s.handles| then s else
    var n := LastAlloc(s).value;
    var s1 := ChangeAlloc(Touch(s, t), t, Decrement(n), true);
    PutHandle(Goto(s1, t, if n == 1 then FreeFence else Calm), h, s.handles[h].(status := Gone))
  }

  function FenceStep(s: State, t: nat, pc: Pc): State
    requires t < |s.threads|
  {
    var th := s.threads[t];
    Put(s, t, th.(pc := pc, clock := Join(th.clock, th.pending)))
  }

  /** Freeing the block: it races with every access that does not happen before it. */
  function FreeStep(s: State, t: nat): State
    requires t < |s.threads|
  {
    Goto(s, t, Calm)
    .(freed := s.freed + 1, bad := s.bad || s.freed > 0 || !Complete(s.events, s.threads[t].clock))
  }

  /** The Relaxed load of the second counter in get_mut. */
  function GmLoadStep(s: State, t: nat, h: nat, i: nat): State
    requires t < |s.threads|
  {
    if !(s.threads[t].clock.alloc <= i < |s.alloc|) then s else
    var s1 := LoadAlloc(Touch(s, t), t, i);
    if s.alloc[i].value == 1 then Goto(s1, t, GmFence(h)) else EndOwn(s1, t, h)
  }

  function CalmStep(s: State, t: nat, a: Action): State
    requires t < |s.threads| && s.alloc != []
  {
    match a
    case BeginShared(h) => BeginSharedStep(s, t, h)
    case EndShared(h) => EndSharedStep(s, t, h)
    case Read(h) => ReadStep(s, t, h)
    case Clone(h) => CloneStep(s, t, h)
    case NewWeak(h) => NewWeakStep(s, t, h)
    case BeginUpgrade(h) => BeginUpgradeStep(s, t, h)
    case BeginDrop(h) => BeginOwnStep(s, t, h, Arc, Dropping(h))
    case BeginDropWeak(h) => BeginOwnStep(s, t, h, Weak, DropAlloc(h))
    case BeginGetMut(h) => BeginOwnStep(s, t, h, Arc, GmLoad(h))
    case _ => s
  }

  /** One step of thread `t`; a step that cannot be taken leaves the state as it is. */
  function Step(s: State, t: nat, a: Action): State {
    if s.aborted || t >= |s.threads| || s.data == [] || s.alloc == [] then s else
    match s.threads[t].pc
    case Calm => CalmStep(s, t, a)
    case Cloning(_, g) => CloneDataStep(s, t, g)
    case UpLoad(h) => if a.Continue? then UpLoadStep(s, t, h, a.i) else s
    case UpCas(h, n) =>
      if a.Exchange? then UpExchange(s, t, h, n) else if a.Continue? then UpLoadStep(s, t, h, a.i) else s
    case UpAlloc(_) => WeakCloneStep(s, t, Arc, Calm)
    case Dropping(h) => DropStep(s, t, h)
    case DropFence(h) => FenceStep(s, t, DropT(h))
    case DropT(h) => DropTStep(s, t, h)
    case DropAlloc(h) => DropAllocStep(s, t, h)
    case FreeFence => FenceStep(s, t, Freeing)
    case Freeing => FreeStep(s, t)
    case GmLoad(h) => if a.Continue? then GmLoadStep(s, t, h, a.i) else s
    case GmFence(h) => FenceStep(s, t, Mutating(h))
    case Mutating(h) => if a.Write? then WriteStep(s, t) else if a.EndMut? then EndOwn(s, t, h) else s
    case Aborting => s.(aborted := true)
  }

  function Run(s: State, sched: seq<(nat, Action)>): State
    decreases |sched|
  {
    if sched == [] then s else Run(Step(s, sched[0].0, sched[0].1), sched[1..])
  }

  /** `Arc::new`, in a program of `n` threads; the initialisation of T is access 0, a write. */
  function Init(n: nat): State {
    var made := Clock({0}, 0, 0);
    State([Msg(1, NEVER)], [Msg(1, NEVER)], 1, {0}, {0}, 0, 0, false, false, Nobody,
          [Handle(Arc, Live, made, NEVER)], seq(n, _ => Thread(Calm, NEVER, NEVER, {})))
  }
}
