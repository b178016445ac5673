/**
 The optimised `Arc` under the weak memory model of `ArcClocks`, now with two counters and the clocks of
 `TwoClocks`.

 - A read-modify-write reads the newest message and passes its clock on; if it is a Release, it adds the
   thread's clock; if it is an Acquire, it adds the message's clock to the thread's.
 - A Relaxed load, and the load of a compare-exchange that fails, may return any message that is not
   older than the thread's clock.
 - The plain Release store of get_mut starts a new release sequence with the thread's clock alone.
 - An Acquire fence adds the clocks of the messages that the thread has read.
 - Borrows carry edges through the `base` and `ended` clocks of a handle.
 */
module OptimisedClocks {
  import opened Basics
  import opened References
  import opened Usize
  import opened TwoClocks

  datatype Kind = Arc | Weak

  datatype Handle = Handle(kind: Kind, status: Status, base: Clock, ended: Clock, birth: nat)

  datatype Pc =
    | Calm                          // no operation in flight; shared borrows may be alive
    | UpLoad(h: nat)
    | UpCas(h: nat, n: nat)
    | DownLoad(h: nat)
    | DownCas(h: nat, n: nat)
    | Dropping(h: nat)
    | DropFence                     // took the first count from 1 to 0
    | DropT
    | DropImplicit                  // about to drop the weak reference shared by all `Arc`s
    | WeakDropping(h: nat)
    | FreeFence                     // took the second count from 1 to 0
    | Freeing
    | GmCas(h: nat)
    | GmLoad(h: nat)                // the second counter is locked
    | GmStore(h: nat, unique: bool)
    | GmFence(h: nat)
    | Mutating(h: nat)              // the `&mut T` returned by get_mut is alive
    | Aborting

  datatype Thread = Thread(pc: Pc, clock: Clock, pending: Clock, shared: set<nat>)

  /**
   `data` and `alloc` are the modification orders of the two counters. Accesses to the block are numbered
   below `events`; `touched` are those to T, and `writes` those that write T.
   */
  datatype State = State(data: seq<Msg>, alloc: seq<Msg>, events: nat, touched: set<nat>, writes: set<nat>,
                         dropped: nat, freed: nat, bad: bool, aborted: bool,
                         locker: Role, last: Role, freer: Role, handles: seq<Handle>, threads: seq<Thread>)

  datatype Action =
    | BeginShared(h: nat) | EndShared(h: nat) | Read(h: nat)
    | Clone(h: nat) | CloneWeak(h: nat)
    | BeginUpgrade(h: nat) | BeginDowngrade(h: nat)
    | BeginDrop(h: nat) | BeginDropWeak(h: nat) | BeginGetMut(h: nat)
    | Write | EndMut
    | Exchange             // a compare-exchange that succeeds
    | Continue(i: nat)     // any other next step of the operation in flight; a load reads message `i`

  /** The call has the handle to itself. */
  predicate Owning(pc: Pc) {
    pc.Dropping? || pc.WeakDropping? || pc.GmCas? || pc.GmLoad? || pc.GmStore? || pc.GmFence? || pc.Mutating?
  }

  /** The call works through a borrowed handle. */
  predicate Through(pc: Pc) {
    pc.UpLoad? || pc.UpCas? || pc.DownLoad? || pc.DownCas?
  }

  predicate Owns(pc: Pc, h: nat) {
    Owning(pc) && pc.h == h
  }

  predicate Uses(th: Thread, h: nat) {
    h in th.shared || Owns(th.pc, h)
  }

  predicate IsLive(s: State, h: nat, kind: Kind) {
    h < |s.handles| && s.handles[h].status == Live && s.handles[h].kind == kind
  }

  predicate CanShare(s: State, h: nat) {
    && h < |s.handles| && s.handles[h].status == Live
    && forall u | 0 <= u < |s.threads| :: !Owns(s.threads[u].pc, h)
  }

  predicate CanOwn(s: State, h: nat, kind: Kind) {
    && IsLive(s, h, kind)
    && forall u | 0 <= u < |s.threads| :: !Uses(s.threads[u], h)
  }

  // ----- Steps -----

  function Put(s: State, t: nat, th: Thread): State
    requires t < |s.threads|
  {
    s.(threads := s.threads[t := th])
  }

  function Goto(s: State, t: nat, pc: Pc): State
    requires t < |s.threads|
  {
    Put(s, t, s.threads[t].(pc := pc))
  }

  function PutHandle(s: State, h: nat, x: Handle): State
    requires h < |s.handles|
  {
    s.(handles := s.handles[h := x])
  }

  function LastData(s: State): Msg
    requires s.data != []
  {
    s.data[|s.data| - 1]
  }

  function LastAlloc(s: State): Msg
    requires s.alloc != []
  {
    s.alloc[|s.alloc| - 1]
  }

  /** Thread `t` accesses the block: the access is numbered and joins the thread's clock. */
  function Touch(s: State, t: nat): State
    requires t < |s.threads|
  {
    var th := s.threads[t];
    Put(s, t, th.(clock := Tick(th.clock, s.events))).(events := s.events + 1, bad := s.bad || s.freed > 0)
  }

  function BeginSharedStep(s: State, t: nat, h: nat): State
    requires t < |s.threads|
  {
    if !CanShare(s, h) then s else
    var th := s.threads[t];
    Put(s, t, th.(clock := Join(th.clock, s.handles[h].base), shared := th.shared + {h}))
  }

  function EndSharedStep(s: State, t: nat, h: nat): State
    requires t < |s.threads|
  {
    var th := s.threads[t];
    if h !in th.shared || h >= |s.handles| then s else
    var x := s.handles[h];
    PutHandle(Put(s, t, th.(shared := th.shared - {h})), h, x.(ended := Join(x.ended, th.clock)))
  }

  function BeginOwnStep(s: State, t: nat, h: nat, kind: Kind, pc: Pc): State
    requires t < |s.threads|
  {
    if !CanOwn(s, h, kind) then s else
    var th := s.threads[t];
    Put(s, t, th.(pc := pc, clock := Join(Join(th.clock, s.handles[h].base), s.handles[h].ended)))
  }

  /** An exclusive use ends: later borrows of the handle come after it. */
  function EndOwn(s: State, t: nat, h: nat): State
    requires t < |s.threads|
  {
    if h >= |s.handles| then s else
    var th := s.threads[t];
    PutHandle(Put(s, t, th.(pc := Calm)), h, s.handles[h].(base := th.clock, ended := NEVER))
  }

  /** A read of T: it races with a write that does not happen before it. */
  function ReadStep(s: State, t: nat, h: nat): State
    requires t < |s.threads|
  {
    if h !in s.threads[t].shared || !IsLive(s, h, Arc) then s else
    Touch(s, t).(touched := s.touched + {s.events},
                 bad := s.bad || s.freed > 0 || s.dropped > 0 || !(s.writes <= s.threads[t].clock.events))
  }

  /** A write through the `&mut T`: it races with every access to T that does not happen before it. */
  function WriteStep(s: State, t: nat): State
    requires t < |s.threads|
  {
    Touch(s, t).(touched := s.touched + {s.events}, writes := s.writes + {s.events},
                 bad := s.bad || s.freed > 0 || s.dropped > 0 || !(s.touched <= s.threads[t].clock.events))
  }

  /** The drop of T, like a write. */
  function DropTStep(s: State, t: nat): State
    requires t < |s.threads|
  {
    Goto(Touch(s, t), t, DropImplicit)
    .(dropped := s.dropped + 1,
      bad := s.bad || s.freed > 0 || s.dropped > 0 || !(s.touched <= s.threads[t].clock.events))
  }

  /** A load of message `i` of the first counter. */
  function LoadData(s: State, t: nat, i: nat): State
    requires t < |s.threads| && i < |s.data|
  {
    var th := s.threads[t];
    Put(s, t, th.(clock := th.clock.(data := i), pending := Join(th.pending, s.data[i].clock)))
  }

  function LoadAlloc(s: State, t: nat, i: nat): State
    requires t < |s.threads| && i < |s.alloc|
  {
    var th := s.threads[t];
    Put(s, t, th.(clock := th.clock.(alloc := i), pending := Join(th.pending, s.alloc[i].clock)))
  }

  /** A read-modify-write of the first counter. */
  function ChangeData(s: State, t: nat, value: nat, release: bool): State
    requires t < |s.threads| && s.data != []
  {
    var th := s.threads[t];
    var prev := LastData(s);
    var clock := th.clock.(data := |s.data|);
    Put(s, t, th.(clock := clock, pending := Join(th.pending, prev.clock)))
    .(data := s.data + [Msg(value, if release then Join(prev.clock, clock) else prev.clock)])
  }

  function ChangeAlloc(s: State, t: nat, value: nat, acquire: bool, release: bool): State
    requires t < |s.threads| && s.alloc != []
  {
    var th := s.threads[t];
    var prev := LastAlloc(s);
    var clock := (if acquire then Join(th.clock, prev.clock) else th.clock).(alloc := |s.alloc|);
    Put(s, t, th.(clock := clock, pending := Join(th.pending, prev.clock)))
    .(alloc := s.alloc + [Msg(value, if release then Join(prev.clock, clock) else prev.clock)])
  }

  /** A new handle of thread `t`. */
  function AddHandle(s: State, t: nat, kind: Kind, doomed: bool): State
    requires t < |s.threads|
  {
    var c := s.threads[t].clock;
    Goto(s, t, if doomed then Aborting else Calm)
    .(handles := s.handles + [Handle(kind, if doomed then Doomed else Live, c, NEVER, c.data)])
  }

  /** The Relaxed increment of `Arc::clone`. */
  function CloneStep(s: State, t: nat, h: nat): State
    requires t < |s.threads| && s.data != []
  {
    if h !in s.threads[t].shared || !IsLive(s, h, Arc) then s else
    var n := LastData(s).value;
    AddHandle(ChangeData(Touch(s, t), t, Increment(n), false), t, Arc, n > MAX / 2)
  }

  /** The Relaxed increment of `Weak::clone`. */
  function CloneWeakStep(s: State, t: nat, h: nat): State
    requires t < |s.threads| && s.alloc != []
  {
    if h !in s.threads[t].shared || !IsLive(s, h, Weak) then s else
    var n := LastAlloc(s).value;
    AddHandle(ChangeAlloc(Touch(s, t), t, Increment(n), false, false), t, Weak, n > MAX / 2)
  }

  function BeginThrough(s: State, t: nat, h: nat, kind: Kind, pc: Pc): State
    requires t < |s.threads|
  {
    if h in s.threads[t].shared && IsLive(s, h, kind) then Goto(s, t, pc) else s
  }

  function UpDecide(h: nat, n: nat): Pc {
    if n == 0 then Calm else UpCas(h, n)
  }

  /** The load of upgrade, also that of a failed exchange. */
  function UpLoadStep(s: State, t: nat, h: nat, i: nat): State
    requires t < |s.threads|
  {
    if !(s.threads[t].clock.data <= i < |s.data|) then s else
    Goto(LoadData(Touch(s, t), t, i), t, UpDecide(h, s.data[i].value))
  }

  /** The Relaxed exchange of upgrade. */
  function UpExchange(s: State, t: nat, n: nat): State
    requires t < |s.threads| && s.data != []
  {
    if LastData(s).value != n then s else AddHandle(ChangeData(Touch(s, t), t, n + 1, false), t, Arc, false)
  }

  function DownDecide(h: nat, n: nat): Pc {
    if n == MAX then DownLoad(h) else DownCas(h, n)
  }

  function DownLoadStep(s: State, t: nat, h: nat, i: nat): State
    requires t < |s.threads|
  {
    if !(s.threads[t].clock.alloc <= i < |s.alloc|) then s else
    Goto(LoadAlloc(Touch(s, t), t, i), t, DownDecide(h, s.alloc[i].value))
  }

  /** The Acquire exchange of downgrade. */
  function DownExchange(s: State, t: nat, n: nat): State
    requires t < |s.threads| && s.alloc != []
  {
    if LastAlloc(s).value != n then s else
    AddHandle(ChangeAlloc(Touch(s, t), t, n + 1, true, false), t, Weak, false)
  }

  /** The Release decrement of `Arc::drop`. */
  function DropStep(s: State, t: nat, h: nat): State
    requires t < |s.threads| && s.data != []
  {
    if h >= |s.handles| then s else
    var n := LastData(s).value;
    var s1 := ChangeData(Touch(s, t), t, Decrement(n), true);
    PutHandle(Goto(s1, t, if n == 1 then DropFence else Calm), h, s.handles[h].(status := Gone))
    .(last := if n == 1 then By(t) else s.last)
  }

  /** The Release decrement of the second counter. */
  function LowerAlloc(s: State, t: nat): State
    requires t < |s.threads| && s.alloc != []
  {
    var n := LastAlloc(s).value;
    var s1 := ChangeAlloc(Touch(s, t), t, Decrement(n), false, true);
    Goto(s1, t, if n == 1 then FreeFence else Calm).(freer := if n == 1 then By(t) else s.freer)
  }

  function WeakDropStep(s: State, t: nat, h: nat): State
    requires t < |s.threads| && s.alloc != []
  {
    if h >= |s.handles| then s else PutHandle(LowerAlloc(s, t), h, s.handles[h].(status := Gone))
  }

  function FenceStep(s: State, t: nat, pc: Pc): State
    requires t < |s.threads|
  {
    var th := s.threads[t];
    Put(s, t, th.(pc := pc, clock := Join(th.clock, th.pending)))
  }

  /** Freeing the block: it races with every access that does not happen before it. */
  function FreeStep(s: State, t: nat): State
    requires t < |s.threads|
  {
    Goto(s, t, Calm)
    .(freed := s.freed + 1, freer := Nobody,
      bad := s.bad || s.freed > 0 || !Complete(s.events, s.threads[t].clock))
  }

  /** The Acquire exchange of get_mut, from 1 to `usize::MAX`. */
  function LockStep(s: State, t: nat, h: nat): State
    requires t < |s.threads| && s.alloc != []
  {
    if LastAlloc(s).value != 1 then s else
    Goto(ChangeAlloc(Touch(s, t), t, MAX, true, false), t, GmLoad(h)).(locker := By(t))
  }

  /** The exchange of get_mut fails if it reads anything but 1. */
  function LockFails(s: State, t: nat, h: nat, i: nat): State
    requires t < |s.threads|
  {
    if !(s.threads[t].clock.alloc <= i < |s.alloc|) || s.alloc[i].value == 1 then s else
    EndOwn(LoadAlloc(Touch(s, t), t, i), t, h)
  }

  /** The Relaxed load of the first counter in get_mut. */
  function GmLoadStep(s: State, t: nat, h: nat, i: nat): State
    requires t < |s.threads|
  {
    if !(s.threads[t].clock.data <= i < |s.data|) then s else
    Goto(LoadData(Touch(s, t), t, i), t, GmStore(h, s.data[i].value == 1))
  }

  /** The Release store of get_mut unlocks the second counter. */
  function StoreAlloc(s: State, t: nat): State
    requires t < |s.threads|
  {
    var th := s.threads[t];
    var clock := th.clock.(alloc := |s.alloc|);
    Put(s, t, th.(clock := clock)).(alloc := s.alloc + [Msg(1, clock)], locker := Nobody)
  }

  function GmStoreStep(s: State, t: nat, h: nat, unique: bool): State
    requires t < |s.threads|
  {
    var s1 := StoreAlloc(Touch(s, t), t);
    if unique then Goto(s1, t, GmFence(h)) else EndOwn(s1, t, h)
  }

  function CalmStep(s: State, t: nat, a: Action): State
    requires t < |s.threads| && s.data != [] && s.alloc != []
  {
    match a
    case BeginShared(h) => BeginSharedStep(s, t, h)
    case EndShared(h) => EndSharedStep(s, t, h)
    case Read(h) => ReadStep(s, t, h)
    case Clone(h) => CloneStep(s, t, h)
    case CloneWeak(h) => CloneWeakStep(s, t, h)
    case BeginUpgrade(h) => BeginThrough(s, t, h, Weak, UpLoad(h))
    case BeginDowngrade(h) => BeginThrough(s, t, h, Arc, DownLoad(h))
    case BeginDrop(h) => BeginOwnStep(s, t, h, Arc, Dropping(h))
    case BeginDropWeak(h) => BeginOwnStep(s, t, h, Weak, WeakDropping(h))
    case BeginGetMut(h) => BeginOwnStep(s, t, h, Arc, GmCas(h))
    case _ => s
  }

  /** One step of thread `t`; a step that cannot be taken leaves the state as it is. */
  function Step(s: State, t: nat, a: Action): State {
    if s.aborted || t >= |s.threads| || s.data == [] || s.alloc == [] then s else
    match s.threads[t].pc
    case Calm => CalmStep(s, t, a)
    case UpLoad(h) => if a.Continue? then UpLoadStep(s, t, h, a.i) else s
    case UpCas(h, n) => if a.Exchange? then UpExchange(s, t, n) else if a.Continue? then UpLoadStep(s, t, h, a.i) else s
    case DownLoad(h) => if a.Continue? then DownLoadStep(s, t, h, a.i) else s
    case DownCas(h, n) =>
      if a.Exchange? then DownExchange(s, t, n) else if a.Continue? then DownLoadStep(s, t, h, a.i) else s
    case Dropping(h) => DropStep(s, t, h)
    case DropFence => FenceStep(s, t, DropT)
    case DropT => DropTStep(s, t)
    case DropImplicit => LowerAlloc(s, t).(last := Nobody)
    case WeakDropping(h) => WeakDropStep(s, t, h)
    case FreeFence => FenceStep(s, t, Freeing)
    case Freeing => FreeStep(s, t)
    case GmCas(h) => if a.Exchange? then LockStep(s, t, h) else if a.Continue? then LockFails(s, t, h, a.i) else s
    case GmLoad(h) => if a.Continue? then GmLoadStep(s, t, h, a.i) else s
    case GmStore(h, unique) => GmStoreStep(s, t, h, unique)
    case GmFence(h) => FenceStep(s, t, Mutating(h))
    case Mutating(h) => if a.Write? then WriteStep(s, t) else if a.EndMut? then EndOwn(s, t, h) else s
    case Aborting => s.(aborted := true)
  }

  function Run(s: State, sched: seq<(nat, Action)>): State
    decreases |sched|
  {
    if sched == [] then s else Run(Step(s, sched[0].0, sched[0].1), sched[1..])
  }

  /** `Arc::new`, in a program of `n` threads; the initialisation of T is access 0, a write. */
  function Init(n: nat): State {
    var made := Clock({0}, 0, 0);
    State([Msg(1, NEVER)], [Msg(1, NEVER)], 1, {0}, {0}, 0, 0, false, false, Nobody, Nobody, Nobody,
          [Handle(Arc, Live, made, NEVER, 0)], seq(n, _ => Thread(Calm, NEVER, NEVER, {})))
  }
}
