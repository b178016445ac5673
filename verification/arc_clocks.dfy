/**
 The one-counter `Arc` under a weak memory model. A clock is the set of block accesses that happen
 before a point of the execution, together with the newest entry of the counter's modification order
 among them.

 - A Release read-modify-write adds the thread's clock to the clock of the message it continues; a
   Relaxed one passes that clock on. Both read the newest message.
 - A Relaxed load may return any message that is not older than the thread's clock.
 - An Acquire fence adds the clocks of the messages that the thread has read.
 - A shared borrow begins after the last exclusive use of the handle, and an exclusive use after all
   shared borrows: `base` and `ended` carry those edges, also to other threads.

 These are the rules of sections [intro.races] and [atomics.fences] of ISO C++20, with one restriction: a
 step reads only what steps before it in the run have written, so that load buffering is excluded.
 */
module ArcClocks {
  import opened Basics
  import opened References
  import opened Sums
  import opened Usize

  datatype Clock = Clock(events: set<nat>, at: nat)

  function Join(a: Clock, b: Clock): Clock {
    Clock(a.events + b.events, if a.at < b.at then b.at else a.at)
  }

  predicate Leq(a: Clock, b: Clock) {
    a.events <= b.events && a.at <= b.at
  }

  const NEVER := Clock({}, 0)

  datatype Msg = Msg(value: nat, clock: Clock)

  datatype Handle = Handle(status: Status, base: Clock, ended: Clock, birth: nat)

  datatype Pc =
    | Calm                 // no operation in flight; shared borrows may be alive
    | Dropping(h: nat)
    | DropFence            // took the count from 1 to 0
    | Freeing
    | GmLoad(h: nat)
    | GmFence(h: nat)      // saw 1
    | Mutating(h: nat)     // the `&mut T` returned by get_mut is alive
    | Aborting

  datatype Thread = Thread(pc: Pc, clock: Clock, pending: Clock, shared: set<nat>)

  /** `msgs` is the modification order of the counter; accesses to the block are numbered below `events`. */
  datatype State = State(msgs: seq<Msg>, events: nat, writes: set<nat>, freed: nat, bad: bool, aborted: bool,
                         dropper: Role, handles: seq<Handle>, threads: seq<Thread>)

  datatype Action =
    | BeginShared(h: nat) | EndShared(h: nat) | Access(h: nat) | Clone(h: nat)
    | BeginDrop(h: nat) | BeginGetMut(h: nat)
    | Write | EndMut
    | Continue(i: nat)     // next step of the operation in flight; a load reads message `i`

  predicate Owns(pc: Pc, h: nat) {
    (pc.Dropping? || pc.GmLoad? || pc.GmFence? || pc.Mutating?) && pc.h == h
  }

  predicate Uses(th: Thread, h: nat) {
    h in th.shared || Owns(th.pc, h)
  }

  predicate CanShare(s: State, h: nat) {
    && h < |s.handles| && s.handles[h].status == Live
    && forall u | 0 <= u < |s.threads| :: !Owns(s.threads[u].pc, h)
  }

  predicate CanOwn(s: State, h: nat) {
    && h < |s.handles| && s.handles[h].status == Live
    && forall u | 0 <= u < |s.threads| :: !Uses(s.threads[u], h)
  }

  /** Every access so far is in the clock. */
  predicate Complete(events: nat, c: Clock) {
    forall e: nat | e < events :: e in c.events
  }

  // ----- Steps -----

  function Put(s: State, t: nat, th: Thread): State
    requires t < |s.threads|
  {
    s.(threads := s.threads[t := th])
  }

  function PutHandle(s: State, h: nat, x: Handle): State
    requires h < |s.handles|
  {
    s.(handles := s.handles[h := x])
  }

  function Tick(c: Clock, e: nat): Clock {
    c.(events := c.events + {e})
  }

  /** Thread `t` accesses the block: the access is numbered and joins the thread's clock. */
  function Touch(s: State, t: nat): State
    requires t < |s.threads|
  {
    var th := s.threads[t];
    Put(s, t, th.(clock := Tick(th.clock, s.events))).(events := s.events + 1, bad := s.bad || s.freed > 0)
  }

  function Last(s: State): Msg
    requires s.msgs != []
  {
    s.msgs[|s.msgs| - 1]
  }

  function BeginSharedStep(s: State, t: nat, h: nat): State
    requires t < |s.threads|
  {
    if !CanShare(s, h) then s else
    var th := s.threads[t];
    Put(s, t, th.(clock := Join(th.clock, s.handles[h].base), shared := th.shared + {h}))
  }

  function EndSharedStep(s: State, t: nat, h: nat): State
    requires t < |s.threads|
  {
    var th := s.threads[t];
    if h !in th.shared || h >= |s.handles| then s else
    var x := s.handles[h];
    PutHandle(Put(s, t, th.(shared := th.shared - {h})), h, x.(ended := Join(x.ended, th.clock)))
  }

  /** A read of T: it races with a write that does not happen before it. */
  function AccessStep(s: State, t: nat, h: nat): State
    requires t < |s.threads|
  {
    var th := s.threads[t];
    if h !in th.shared then s else
    Touch(s, t).(bad := s.bad || s.freed > 0 || !(s.writes <= th.clock.events))
  }

  /** The Relaxed increment of clone. */
  function CloneStep(s: State, t: nat, h: nat): State
    requires t < |s.threads| && s.msgs != []
  {
    var th := s.threads[t];
    if h !in th.shared then s else
    var n := |s.msgs|;
    var prev := Last(s);
    var clock := Clock(th.clock.events + {s.events}, n);
    var doomed := prev.value > MAX / 2;
    var th' := th.(clock := clock, pending := Join(th.pending, prev.clock), pc := if doomed then Aborting else Calm);
    Put(s, t, th').(msgs := s.msgs + [Msg(Increment(prev.value), prev.clock)],
                    handles := s.handles + [Handle(if doomed then Doomed else Live, clock, NEVER, n)],
                    events := s.events + 1, bad := s.bad || s.freed > 0)
  }

  function BeginOwnStep(s: State, t: nat, h: nat, pc: Pc): State
    requires t < |s.threads|
  {
    if !CanOwn(s, h) then s else
    var th := s.threads[t];
    Put(s, t, th.(pc := pc, clock := Join(Join(th.clock, s.handles[h].base), s.handles[h].ended)))
  }

  /** The Release decrement of drop. */
  function DropStep(s: State, t: nat, h: nat): State
    requires t < |s.threads| && s.msgs != []
  {
    if h >= |s.handles| then s else
    var th := s.threads[t];
    var n := |s.msgs|;
    var prev := Last(s);
    var clock := Clock(th.clock.events + {s.events}, n);
    var th' := th.(clock := clock, pending := Join(th.pending, prev.clock),
                   pc := if prev.value == 1 then DropFence else Calm);
    Put(s, t, th').(msgs := s.msgs + [Msg(Decrement(prev.value), Join(prev.clock, clock))],
                    handles := s.handles[h := s.handles[h].(status := Gone)],
                    events := s.events + 1, bad := s.bad || s.freed > 0,
                    dropper := if prev.value == 1 then By(t) else s.dropper)
  }

  function FenceStep(s: State, t: nat, pc: Pc): State
    requires t < |s.threads|
  {
    var th := s.threads[t];
    Put(s, t, th.(pc := pc, clock := Join(th.clock, th.pending)))
  }

  /** Dropping T and freeing the block: it races with every access that does not happen before it. */
  function FreeStep(s: State, t: nat): State
    requires t < |s.threads|
  {
    var th := s.threads[t];
    Put(s, t, th.(pc := Calm))
    .(freed := s.freed + 1, dropper := Nobody, bad := s.bad || s.freed > 0 || !Complete(s.events, th.clock))
  }

  /** An exclusive use ends: later borrows of the handle come after it. */
  function EndOwn(s: State, t: nat, h: nat): State
    requires t < |s.threads|
  {
    if h >= |s.handles| then s else
    var th := s.threads[t];
    PutHandle(Put(s, t, th.(pc := Calm)), h, s.handles[h].(base := th.clock, ended := NEVER))
  }

  /** The Relaxed load of get_mut. */
  function GmLoadStep(s: State, t: nat, h: nat, i: nat): State
    requires t < |s.threads|
  {
    var th := s.threads[t];
    if !(th.clock.at <= i < |s.msgs|) then s else
    var clock := Clock(th.clock.events + {s.events}, i);
    var th' := th.(clock := clock, pending := Join(th.pending, s.msgs[i].clock));
    var s1 := Put(s, t, th').(events := s.events + 1, bad := s.bad || s.freed > 0);
    if s.msgs[i].value == 1 then Put(s1, t, th'.(pc := GmFence(h))) else EndOwn(s1, t, h)
  }

  /** A write through the `&mut T`: it races with every access that does not happen before it. */
  function WriteStep(s: State, t: nat): State
    requires t < |s.threads|
  {
    Touch(s, t).(writes := s.writes + {s.events},
                 bad := s.bad || s.freed > 0 || !Complete(s.events, s.threads[t].clock))
  }

  function CalmStep(s: State, t: nat, a: Action): State
    requires t < |s.threads| && s.msgs != []
  {
    match a
    case BeginShared(h) => BeginSharedStep(s, t, h)
    case EndShared(h) => EndSharedStep(s, t, h)
    case Access(h) => AccessStep(s, t, h)
    case Clone(h) => CloneStep(s, t, h)
    case BeginDrop(h) => BeginOwnStep(s, t, h, Dropping(h))
    case BeginGetMut(h) => BeginOwnStep(s, t, h, GmLoad(h))
    case _ => s
  }

  /** One step of thread `t`; a step that cannot be taken leaves the state as it is. */
  function Step(s: State, t: nat, a: Action): State {
    if s.aborted || t >= |s.threads| || s.msgs == [] then s else
    match s.threads[t].pc
    case Calm => CalmStep(s, t, a)
    case Dropping(h) => DropStep(s, t, h)
    case DropFence => FenceStep(s, t, Freeing)
    case Freeing => FreeStep(s, t)
    case GmLoad(h) => if a.Continue? then GmLoadStep(s, t, h, a.i) else s
    case GmFence(h) => FenceStep(s, t, Mutating(h))
    case Mutating(h) => if a.Write? then WriteStep(s, t) else if a.EndMut? then EndOwn(s, t, h) else s
    case Aborting => s.(aborted := true)
  }

  function Run(s: State, sched: seq<(nat, Action)>): State
    decreases |sched|
  {
    if sched == [] then s else Run(Step(s, sched[0].0, sched[0].1), sched[1..])
  }

  /** `Arc::new`, in a program of `n` threads; the initialisation of T is access 0, a write. */
  function Init(n: nat): State {
    var made := Clock({0}, 0);
    State([Msg(1, NEVER)], 1, {0}, 0, false, false, Nobody, [Handle(Live, made, NEVER, 0)],
          seq(n, _ => Thread(Calm, NEVER, NEVER, {})))
  }

  // ----- The invariant -----

  function Share(x: Handle): nat {
    if x.status == Gone then 0 else 1
  }

  function IsAborting(th: Thread): nat {
    if th.pc == Aborting then 1 else 0
  }

  /** The counter is the number of counted references and cannot have wrapped around. */
  ghost predicate Counts(s: State)
    requires s.msgs != []
  {
    && Last(s).value == Sum(s.handles, Share)
    && Last(s).value <= MAX / 2 + 1 + Sum(s.threads, IsAborting)
    && s.freed + One(s.dropper.By?) + One(Last(s).value > 0) == 1
  }

  predicate ThreadOk(s: State, t: nat)
    requires s.msgs != [] && t < |s.threads|
  {
    var th := s.threads[t];
    var n := |s.msgs|;
    && th.clock.at < n && th.pending.at < n
    && (forall h | h in th.shared ::
          h < |s.handles| && s.handles[h].status == Live && Leq(s.handles[h].base, th.clock))
    && (th.pc.Dropping? || th.pc.GmLoad? || th.pc.GmFence? || th.pc.Mutating? ==>
          && th.pc.h < |s.handles| && s.handles[th.pc.h].status == Live
          && Leq(s.handles[th.pc.h].base, th.clock) && Leq(s.handles[th.pc.h].ended, th.clock)
          && (forall u | 0 <= u < |s.threads| && u != t :: !Uses(s.threads[u], th.pc.h))
          && th.pc.h !in th.shared)
    && (th.pc.GmFence? ==> Last(s).value == 1 && Leq(Last(s).clock, Join(th.clock, th.pending)))
    && (th.pc.Mutating? ==> Last(s).value == 1 && Leq(Last(s).clock, th.clock) && s.writes <= th.clock.events)
    && (th.pc.DropFence? ==> Leq(Last(s).clock, Join(th.clock, th.pending)))
    && (th.pc.Freeing? ==> Leq(Last(s).clock, th.clock))
    && (th.pc.DropFence? || th.pc.Freeing? <==> s.dropper == By(t))
  }

  ghost predicate IsMutating(s: State, t: nat, h: nat) {
    t < |s.threads| && s.threads[t].pc == Mutating(h)
  }

  ghost predicate HandleOk(s: State, h: nat)
    requires s.msgs != [] && h < |s.handles|
  {
    var x := s.handles[h];
    && x.base.at < |s.msgs| && x.ended.at < |s.msgs|
    && (x.status == Live ==>
          && x.birth <= x.base.at
          && (s.writes <= x.base.events || exists t: nat :: IsMutating(s, t, h)))
  }

  /** A thread that works through handle `h` has seen message `i` of the counter. */
  ghost predicate Witness(s: State, t: nat, h: nat, i: nat) {
    t < |s.threads| && Uses(s.threads[t], h) && i <= s.threads[t].clock.at
  }

  ghost predicate Knows(s: State, h: nat, i: nat)
    requires h < |s.handles|
  {
    i <= s.handles[h].base.at || i <= s.handles[h].ended.at || exists t: nat :: Witness(s, t, h, i)
  }

  /** Whoever will own `h` exclusively has seen that a count of 1 during its life was overwritten. */
  ghost predicate OnesSeen(s: State, h: nat)
    requires h < |s.handles|
  {
    s.handles[h].status == Live ==>
      forall i: nat | s.handles[h].birth <= i < |s.msgs| - 1 && s.msgs[i].value == 1 :: Knows(s, h, i + 1)
  }

  ghost predicate InHandle(s: State, h: nat, e: nat) {
    && h < |s.handles| && s.handles[h].status == Live
    && (e in s.handles[h].base.events || e in s.handles[h].ended.events)
  }

  predicate Engaged(th: Thread) {
    th.shared != {} || th.pc.Dropping? || th.pc.GmLoad? || th.pc.GmFence? || th.pc.Mutating?
  }

  ghost predicate InThread(s: State, t: nat, e: nat) {
    t < |s.threads| && Engaged(s.threads[t]) && e in s.threads[t].clock.events
  }

  /** Access `e` is known to the newest message, to a live handle or to a thread that works through one. */
  ghost predicate Covered(s: State, e: nat)
    requires s.msgs != []
  {
    || e in Last(s).clock.events
    || (exists h: nat :: InHandle(s, h, e))
    || (exists t: nat :: InThread(s, t, e))
  }

  ghost predicate Inv(s: State) {
    && s.msgs != []
    && Counts(s)
    && !s.bad
    && |s.threads| <= MAX / 2
    && (forall i | 0 <= i < |s.msgs| :: s.msgs[i].clock.at < |s.msgs|)
    && (forall t: nat | t < |s.threads| :: ThreadOk(s, t))
    && (forall h: nat | h < |s.handles| :: HandleOk(s, h))
    && (forall h: nat | h < |s.handles| :: OnesSeen(s, h))
    && (forall e: nat | e < s.events :: Covered(s, e))
    && (s.dropper.By? ==> s.dropper.t < |s.threads|)
  }

  lemma InitInv(n: nat)
    requires n <= MAX / 2
    ensures Inv(Init(n))
  {
    var s := Init(n);
    assert s.handles[1..] == [];
    SumConstant(s.threads, 0, IsAborting);
    assert InHandle(s, 0, 0);
  }

  // ----- What a step of thread `t` through handle `h` leaves alone -----

  predicate Special(pc: Pc) {
    pc.GmFence? || pc.Mutating? || pc.DropFence? || pc.Freeing?
  }

  lemma LiveIsCounted(s: State, t: nat, h: nat)
    requires Inv(s) && t < |s.threads| && Uses(s.threads[t], h)
    ensures h < |s.handles| && s.handles[h].status == Live && Last(s).value >= 1 && s.freed == 0 && s.dropper.Nobody?
  {
    assert ThreadOk(s, t);
    SumAtLeast(s.handles, h, Share);
  }

  /** Nobody else can be alone while `t` works through a handle. */
  lemma NoOtherSpecial(s: State, t: nat, h: nat)
    requires Inv(s) && t < |s.threads| && Uses(s.threads[t], h)
    ensures forall u: nat | u < |s.threads| && u != t :: !Special(s.threads[u].pc)
  {
    LiveIsCounted(s, t, h);
    forall u: nat | u < |s.threads| && u != t
      ensures !Special(s.threads[u].pc)
    {
      assert ThreadOk(s, u);
      if s.threads[u].pc.GmFence? || s.threads[u].pc.Mutating? {
        var g := s.threads[u].pc.h;
        assert g != h;
        SumAtLeastTwo(s.handles, if g < h then g else h, if g < h then h else g, Share);
      }
    }
  }

  /** If the count is 1, the handle through which `t` works is the only counted reference. */
  lemma OnlyReference(s: State, t: nat, h: nat, g: nat)
    requires Inv(s) && t < |s.threads| && Uses(s.threads[t], h) && Last(s).value == 1
    requires g < |s.handles| && g != h
    ensures s.handles[g].status == Gone
  {
    LiveIsCounted(s, t, h);
    SumAtLeastTwo(s.handles, if g < h then g else h, if g < h then h else g, Share);
  }

  /** Handle `g` still serves the threads other than `t`. */
  predicate Serves(s: State, s': State, t: nat, g: nat)
    requires t < |s.threads| && g < |s.handles|
  {
    && g < |s'.handles|
    && (|| s'.handles[g] == s.handles[g]
        || Owns(s.threads[t].pc, g)
        || (g in s.threads[t].shared && s'.handles[g] == s.handles[g].(ended := s'.handles[g].ended)))
  }

  lemma OthersKept(s: State, s': State, t: nat)
    requires s.msgs != [] && t < |s.threads| == |s'.threads| && s'.threads == s.threads[t := s'.threads[t]]
    requires forall u: nat | u < |s.threads| :: ThreadOk(s, u)
    requires |s.msgs| <= |s'.msgs|
    requires forall g: nat | g < |s.handles| :: Serves(s, s', t, g)
    requires forall g: nat | Uses(s'.threads[t], g) ::
               Uses(s.threads[t], g) || forall u | 0 <= u < |s.threads| && u != t :: !Owns(s.threads[u].pc, g)
    requires (s'.msgs == s.msgs && s'.writes == s.writes)
             || forall u: nat | u < |s.threads| && u != t :: !Special(s.threads[u].pc)
    requires SameForOthers(s.dropper, s'.dropper, t)
    ensures forall u: nat | u < |s.threads| && u != t :: ThreadOk(s', u)
  {
    forall u: nat | u < |s.threads| && u != t
      ensures ThreadOk(s', u)
    {
      assert ThreadOk(s, u) && ThreadOk(s, t);
      var th := s.threads[u];
      if th.pc.Dropping? || th.pc.GmLoad? || th.pc.GmFence? || th.pc.Mutating? {
        assert Serves(s, s', t, th.pc.h) && Owns(th.pc, th.pc.h);
      }
      forall h | h in th.shared
        ensures h < |s'.handles| && s'.handles[h].status == Live && Leq(s'.handles[h].base, th.clock)
      {
        assert Uses(th, h) && Serves(s, s', t, h);
      }
    }
  }

  lemma CoverKept(s: State, s': State, t: nat, h: nat)
    requires s.msgs != [] && s'.msgs != [] && t < |s.threads| == |s'.threads|
    requires s'.threads == s.threads[t := s'.threads[t]]
    requires Last(s).clock.events <= Last(s').clock.events
    requires |s.handles| <= |s'.handles|
    requires forall g: nat | g < |s.handles| && g != h :: s'.handles[g] == s.handles[g]
    requires forall e: nat | e < s.events :: Covered(s, e)
    requires forall e: nat | InHandle(s, h, e) || InThread(s, t, e) :: Covered(s', e)
    requires s'.events == s.events || (s'.events == s.events + 1 && Covered(s', s.events))
    ensures forall e: nat | e < s'.events :: Covered(s', e)
  {
    forall e: nat | e < s.events
      ensures Covered(s', e)
    {
      assert Covered(s, e);
      if g: nat :| InHandle(s, g, e) {
        assert g != h ==> InHandle(s', g, e);
      } else if u: nat :| InThread(s, u, e) {
        assert u != t ==> InThread(s', u, e);
      }
    }
  }

  /** What was seen through another handle stays seen. */
  lemma KnowsKept(s: State, s': State, t: nat, g: nat, i: nat)
    requires t < |s.threads| == |s'.threads| && s'.threads == s.threads[t := s'.threads[t]]
    requires g < |s.handles| <= |s'.handles| && s'.handles[g] == s.handles[g]
    requires s.threads[t].clock.at <= s'.threads[t].clock.at
    requires Uses(s.threads[t], g) ==> Uses(s'.threads[t], g)
    requires Knows(s, g, i)
    ensures Knows(s', g, i)
  {
    if u: nat :| Witness(s, u, g, i) {
      assert Witness(s', u, g, i);
    }
  }

  lemma OnesKept(s: State, s': State, t: nat, h: nat)
    requires t < |s.threads| == |s'.threads| && s'.threads == s.threads[t := s'.threads[t]]
    requires |s.handles| == |s'.handles| && s'.msgs == s.msgs
    requires forall g: nat | g < |s.handles| && g != h :: s'.handles[g] == s.handles[g]
    requires s.threads[t].clock.at <= s'.threads[t].clock.at
    requires forall g: nat | g != h && Uses(s.threads[t], g) :: Uses(s'.threads[t], g)
    requires forall g: nat | g < |s.handles| :: OnesSeen(s, g)
    requires h < |s.handles| ==> OnesSeen(s', h)
    ensures forall g: nat | g < |s'.handles| :: OnesSeen(s', g)
  {
    forall g: nat | g < |s.handles| && g != h && s.handles[g].status == Live
      ensures OnesSeen(s', g)
    {
      assert OnesSeen(s, g);
      forall i: nat | s.handles[g].birth <= i < |s.msgs| - 1 && s.msgs[i].value == 1
        ensures Knows(s', g, i + 1)
      {
        KnowsKept(s, s', t, g, i + 1);
      }
    }
  }

  lemma UsedHandle(s: State, u: nat) returns (g: nat)
    requires Inv(s) && u < |s.threads| && Engaged(s.threads[u])
    ensures Uses(s.threads[u], g)
  {
    if s.threads[u].shared != {} {
      g :| g in s.threads[u].shared;
    } else {
      g := s.threads[u].pc.h;
    }
  }

  /** A live handle beside a thread that is alone is that thread's own. */
  lemma OnlyMine(s: State, t: nat, g: nat)
    requires Inv(s) && t < |s.threads| && (s.threads[t].pc.Freeing? || s.threads[t].pc.Mutating?)
    requires g < |s.handles| && s.handles[g].status == Live
    ensures s.threads[t].pc == Mutating(g)
  {
    assert ThreadOk(s, t);
    SumAtLeast(s.handles, g, Share);
    if s.threads[t].pc.Mutating? && s.threads[t].pc.h != g {
      OnlyReference(s, t, s.threads[t].pc.h, g);
    }
  }

  // ----- Who knows every access -----

  lemma AllKnown(s: State, t: nat)
    requires Inv(s) && t < |s.threads| && (s.threads[t].pc.Freeing? || s.threads[t].pc.Mutating?)
    ensures Complete(s.events, s.threads[t].clock)
  {
    assert ThreadOk(s, t);
    forall e: nat | e < s.events
      ensures e in s.threads[t].clock.events
    {
      assert Covered(s, e);
      if e in Last(s).clock.events {
      } else if g: nat :| InHandle(s, g, e) {
        OnlyMine(s, t, g);
      } else {
        var u: nat :| InThread(s, u, e);
        if u != t {
          var g := UsedHandle(s, u);
          NoOtherSpecial(s, u, g);
        }
      }
    }
  }

  /** Every write of T happens before a borrow of any live handle. */
  lemma WritesSeen(s: State, t: nat, h: nat)
    requires Inv(s) && t < |s.threads| && Uses(s.threads[t], h)
    ensures s.writes <= s.threads[t].clock.events
  {
    LiveIsCounted(s, t, h);
    assert ThreadOk(s, t) && HandleOk(s, h);
    if u: nat :| IsMutating(s, u, h) {
      assert ThreadOk(s, u);
    }
  }

  // ----- Every step keeps the invariant -----

  lemma HandlesKept(s: State, s': State, t: nat, h: nat)
    requires s.msgs != [] && t < |s.threads| == |s'.threads| && s'.threads == s.threads[t := s'.threads[t]]
    requires forall g: nat | g < |s.handles| :: HandleOk(s, g)
    requires |s.msgs| <= |s'.msgs| && |s.handles| <= |s'.handles| && s'.writes == s.writes
    requires forall g: nat | g < |s.handles| && g != h :: s'.handles[g] == s.handles[g]
    requires s.threads[t].pc.Mutating? ==> s.threads[t].pc.h == h
    ensures forall g: nat | g < |s.handles| && g != h :: HandleOk(s', g)
  {
    forall g: nat | g < |s.handles| && g != h
      ensures HandleOk(s', g)
    {
      assert HandleOk(s, g);
      if u: nat :| IsMutating(s, u, g) {
        assert IsMutating(s', u, g);
      }
    }
  }

  lemma CountsMoved(s: State, s': State, t: nat)
    requires s.msgs != [] && Counts(s) && t < |s.threads| == |s'.threads| && s'.threads == s.threads[t := s'.threads[t]]
    requires s'.msgs == s.msgs && s'.freed == s.freed && s'.dropper == s.dropper
    requires IsAborting(s'.threads[t]) == IsAborting(s.threads[t])
    requires |s'.handles| == |s.handles|
    requires s'.handles == s.handles || exists h: nat, x: Handle ::
               h < |s.handles| && x.status == s.handles[h].status && s'.handles == s.handles[h := x]
    ensures Counts(s')
  {
    SumUpdate(s.threads, t, s'.threads[t], IsAborting);
    if s'.handles != s.handles {
      var h: nat, x: Handle :| h < |s.handles| && x.status == s.handles[h].status && s'.handles == s.handles[h := x];
      SumUpdate(s.handles, h, x, Share);
    }
  }

  lemma InvBeginShared(s: State, t: nat, h: nat)
    requires Inv(s) && t < |s.threads| && s.threads[t].pc.Calm?
    ensures Inv(BeginSharedStep(s, t, h))
  {
    var s' := BeginSharedStep(s, t, h);
    if CanShare(s, h) {
      var none := |s.handles|;
      assert ThreadOk(s, t) && HandleOk(s, h);
      CountsMoved(s, s', t);
      OthersKept(s, s', t);
      HandlesKept(s, s', t, none);
      OnesKept(s, s', t, none);
      forall e: nat | InThread(s, t, e) ensures Covered(s', e) { assert InThread(s', t, e); }
      CoverKept(s, s', t, none);
    }
  }

  /** What a borrower has seen is handed to the handle when the borrow ends. */
  lemma EndedStillSeen(s: State, s': State, t: nat, h: nat)
    requires Inv(s) && t < |s.threads| && h in s.threads[t].shared && h < |s.handles|
    requires s' == EndSharedStep(s, t, h)
    ensures OnesSeen(s', h)
  {
    assert OnesSeen(s, h);
    forall i: nat | s.handles[h].birth <= i < |s.msgs| - 1 && s.msgs[i].value == 1 && s.handles[h].status == Live
      ensures Knows(s', h, i + 1)
    {
      var j := i + 1;
      assert Knows(s, h, j);
      if u: nat :| Witness(s, u, h, j) {
        assert u != t ==> Witness(s', u, h, j);
      }
    }
  }

  lemma InvEndShared(s: State, t: nat, h: nat)
    requires Inv(s) && t < |s.threads| && s.threads[t].pc.Calm?
    ensures Inv(EndSharedStep(s, t, h))
  {
    var s' := EndSharedStep(s, t, h);
    if s' != s {
      assert Uses(s.threads[t], h);
      LiveIsCounted(s, t, h);
      assert ThreadOk(s, t) && HandleOk(s, h);
      CountsMoved(s, s', t);
      OthersKept(s, s', t);
      HandlesKept(s, s', t, h);
      EndedStillSeen(s, s', t, h);
      OnesKept(s, s', t, h);
      forall e: nat | InThread(s, t, e) || InHandle(s, h, e) ensures Covered(s', e) { assert InHandle(s', h, e); }
      CoverKept(s, s', t, h);
      assert HandleOk(s', h) by {
        if u: nat :| IsMutating(s, u, h) { assert IsMutating(s', u, h); }
      }
    }
  }

  lemma InvAccess(s: State, t: nat, h: nat)
    requires Inv(s) && t < |s.threads| && s.threads[t].pc.Calm?
    ensures Inv(AccessStep(s, t, h))
  {
    var s' := AccessStep(s, t, h);
    if s' != s {
      var none := |s.handles|;
      assert Uses(s.threads[t], h);
      LiveIsCounted(s, t, h);
      WritesSeen(s, t, h);
      assert ThreadOk(s, t);
      CountsMoved(s, s', t);
      OthersKept(s, s', t);
      HandlesKept(s, s', t, none);
      OnesKept(s, s', t, none);
      forall e: nat | InThread(s, t, e) || e == s.events ensures Covered(s', e) { assert InThread(s', t, e); }
      CoverKept(s, s', t, none);
    }
  }

  lemma InvBeginOwn(s: State, t: nat, h: nat, pc: Pc)
    requires Inv(s) && t < |s.threads| && s.threads[t].pc.Calm? && (pc == Dropping(h) || pc == GmLoad(h))
    ensures Inv(BeginOwnStep(s, t, h, pc))
  {
    var s' := BeginOwnStep(s, t, h, pc);
    if CanOwn(s, h) {
      var none := |s.handles|;
      assert ThreadOk(s, t) && HandleOk(s, h) && !Uses(s.threads[t], h);
      CountsMoved(s, s', t);
      OthersKept(s, s', t);
      HandlesKept(s, s', t, none);
      OnesKept(s, s', t, none);
      forall e: nat | InThread(s, t, e) ensures Covered(s', e) { assert InThread(s', t, e); }
      CoverKept(s, s', t, none);
    }
  }

  /** A read-modify-write by `t` through `h` appends a message. */
  lemma OnesAppended(s: State, s': State, t: nat, h: nat)
    requires Inv(s) && t < |s.threads| == |s'.threads| && s'.threads == s.threads[t := s'.threads[t]]
    requires Uses(s.threads[t], h) && |s'.msgs| == |s.msgs| + 1 && s'.msgs[..|s.msgs|] == s.msgs
    requires s'.threads[t].clock.at == |s.msgs|
    requires h < |s.handles| <= |s'.handles|
    requires forall g: nat | g < |s.handles| && g != h :: s'.handles[g] == s.handles[g]
    requires forall g: nat | g != h && Uses(s.threads[t], g) :: Uses(s'.threads[t], g)
    requires s'.handles[h].status == Live ==> s'.handles[h] == s.handles[h] && Uses(s'.threads[t], h)
    ensures forall g: nat | g < |s.handles| :: OnesSeen(s', g)
  {
    var n := |s.msgs|;
    LiveIsCounted(s, t, h);
    assert ThreadOk(s, t);
    forall g: nat | g < |s.handles| && s'.handles[g].status == Live
      ensures OnesSeen(s', g)
    {
      assert OnesSeen(s, g);
      forall i: nat | s'.handles[g].birth <= i < |s'.msgs| - 1 && s'.msgs[i].value == 1
        ensures Knows(s', g, i + 1)
      {
        assert s'.msgs[i] == s.msgs[i];
        if i < n - 1 {
          KnowsKept(s, s', t, g, i + 1);
        } else {
          if g != h { OnlyReference(s, t, h, g); }
          assert Witness(s', t, h, n);
        }
      }
    }
  }

  lemma CloneCounts(s: State, t: nat, h: nat)
    requires Inv(s) && t < |s.threads| && s.threads[t].pc.Calm? && h in s.threads[t].shared
    ensures Counts(CloneStep(s, t, h)) && Last(s).value < MAX
  {
    var s' := CloneStep(s, t, h);
    assert Uses(s.threads[t], h);
    LiveIsCounted(s, t, h);
    SumUpdate(s.threads, t, s'.threads[t], IsAborting);
    SumAppend(s.handles, s'.handles[|s.handles|], Share);
    var full := s.threads[t := s.threads[t].(pc := Aborting)];
    SumUpdate(s.threads, t, full[t], IsAborting);
    SumBounded(full, IsAborting);
  }

  lemma CloneThread(s: State, t: nat, h: nat)
    requires Inv(s) && t < |s.threads| && s.threads[t].pc.Calm? && h in s.threads[t].shared
    ensures ThreadOk(CloneStep(s, t, h), t)
  {
    var s' := CloneStep(s, t, h);
    assert ThreadOk(s, t);
    assert Last(s).clock.at < |s.msgs|;
    forall g | g in s.threads[t].shared
      ensures g < |s'.handles| && s'.handles[g].status == Live && Leq(s'.handles[g].base, s'.threads[t].clock)
    {
      assert HandleOk(s, g);
    }
    assert Uses(s.threads[t], h);
    LiveIsCounted(s, t, h);
  }

  lemma InvClone(s: State, t: nat, h: nat)
    requires Inv(s) && t < |s.threads| && s.threads[t].pc.Calm?
    ensures Inv(CloneStep(s, t, h))
  {
    var s' := CloneStep(s, t, h);
    if h in s.threads[t].shared {
      var none := |s.handles|;
      assert Uses(s.threads[t], h);
      LiveIsCounted(s, t, h);
      WritesSeen(s, t, h);
      NoOtherSpecial(s, t, h);
      CloneCounts(s, t, h);
      assert ThreadOk(s, t);
      OthersKept(s, s', t);
      HandlesKept(s, s', t, none);
      OnesAppended(s, s', t, h);
      assert OnesSeen(s', none);
      forall e: nat | InThread(s, t, e) || e == s.events ensures Covered(s', e) { assert InThread(s', t, e); }
      CoverKept(s, s', t, none);
      CloneThread(s, t, h);
    }
  }

  lemma DropCounts(s: State, t: nat, h: nat)
    requires Inv(s) && t < |s.threads| && s.threads[t].pc == Dropping(h)
    ensures h < |s.handles| && Counts(DropStep(s, t, h)) && Last(s).value >= 1
  {
    assert Uses(s.threads[t], h);
    LiveIsCounted(s, t, h);
    var s' := DropStep(s, t, h);
    SumUpdate(s.threads, t, s'.threads[t], IsAborting);
    SumUpdate(s.handles, h, s'.handles[h], Share);
  }

  lemma DropThread(s: State, t: nat, h: nat)
    requires Inv(s) && t < |s.threads| && s.threads[t].pc == Dropping(h)
    ensures ThreadOk(DropStep(s, t, h), t)
  {
    assert Uses(s.threads[t], h);
    LiveIsCounted(s, t, h);
    var s' := DropStep(s, t, h);
    assert ThreadOk(s, t);
    assert Last(s).clock.at < |s.msgs|;
    forall g | g in s.threads[t].shared
      ensures g < |s'.handles| && s'.handles[g].status == Live && Leq(s'.handles[g].base, s'.threads[t].clock)
    {
      assert HandleOk(s, g);
    }
  }

  lemma InvDrop(s: State, t: nat, h: nat)
    requires Inv(s) && t < |s.threads| && s.threads[t].pc == Dropping(h)
    ensures Inv(DropStep(s, t, h))
  {
    var s' := DropStep(s, t, h);
    assert Uses(s.threads[t], h);
    LiveIsCounted(s, t, h);
    NoOtherSpecial(s, t, h);
    DropCounts(s, t, h);
    DropThread(s, t, h);
    assert ThreadOk(s, t) && HandleOk(s, h);
    OthersKept(s, s', t);
    HandlesKept(s, s', t, h);
    OnesAppended(s, s', t, h);
    forall e: nat | InThread(s, t, e) || InHandle(s, h, e) || e == s.events ensures Covered(s', e) {
      assert e in Last(s').clock.events;
    }
    CoverKept(s, s', t, h);
  }

  lemma InvFence(s: State, t: nat, pc: Pc)
    requires Inv(s) && t < |s.threads|
    requires (s.threads[t].pc.DropFence? && pc == Freeing)
             || (s.threads[t].pc.GmFence? && pc == Mutating(s.threads[t].pc.h))
    ensures Inv(FenceStep(s, t, pc))
  {
    var s' := FenceStep(s, t, pc);
    var none := |s.handles|;
    assert ThreadOk(s, t);
    if s.threads[t].pc.GmFence? {
      assert Uses(s.threads[t], s.threads[t].pc.h);
      WritesSeen(s, t, s.threads[t].pc.h);
    }
    CountsMoved(s, s', t);
    OthersKept(s, s', t);
    HandlesKept(s, s', t, none);
    OnesKept(s, s', t, none);
    forall e: nat | InThread(s, t, e) ensures Covered(s', e) { assert InThread(s', t, e); }
    CoverKept(s, s', t, none);
  }

  lemma InvFree(s: State, t: nat)
    requires Inv(s) && t < |s.threads| && s.threads[t].pc.Freeing?
    ensures Inv(FreeStep(s, t))
  {
    var s' := FreeStep(s, t);
    var none := |s.handles|;
    assert ThreadOk(s, t);
    AllKnown(s, t);
    SumUpdate(s.threads, t, s'.threads[t], IsAborting);
    OthersKept(s, s', t);
    HandlesKept(s, s', t, none);
    OnesKept(s, s', t, none);
    forall e: nat | InThread(s, t, e) ensures Covered(s', e) { assert InThread(s', t, e); }
    CoverKept(s, s', t, none);
  }

  /** A load that sees 1 has read the newest message, however stale a Relaxed load may be. */
  lemma OneIsFresh(s: State, t: nat, h: nat, i: nat)
    requires Inv(s) && t < |s.threads| && s.threads[t].pc == GmLoad(h)
    requires s.threads[t].clock.at <= i < |s.msgs| && s.msgs[i].value == 1
    ensures i == |s.msgs| - 1
  {
    assert Uses(s.threads[t], h);
    LiveIsCounted(s, t, h);
    assert ThreadOk(s, t) && HandleOk(s, h) && OnesSeen(s, h);
    if i < |s.msgs| - 1 {
      var j := i + 1;
      assert Knows(s, h, j);
    }
  }

  lemma OwnedStillSeen(s: State, s': State, t: nat, h: nat)
    requires Inv(s) && t < |s.threads| && (s.threads[t].pc == Mutating(h) || s.threads[t].pc == GmLoad(h))
    requires s' == EndOwn(s, t, h)
    ensures h < |s'.handles| && OnesSeen(s', h)
  {
    assert Uses(s.threads[t], h);
    LiveIsCounted(s, t, h);
    assert ThreadOk(s, t) && OnesSeen(s, h);
    forall i: nat | s'.handles[h].birth <= i < |s.msgs| - 1 && s.msgs[i].value == 1
      ensures Knows(s', h, i + 1)
    {
      var j := i + 1;
      assert Knows(s, h, j);
    }
  }

  lemma InvOwnEnds(s: State, t: nat, h: nat)
    requires Inv(s) && t < |s.threads| && (s.threads[t].pc == Mutating(h) || s.threads[t].pc == GmLoad(h))
    ensures Inv(EndOwn(s, t, h))
  {
    var s' := EndOwn(s, t, h);
    assert Uses(s.threads[t], h);
    LiveIsCounted(s, t, h);
    WritesSeen(s, t, h);
    assert ThreadOk(s, t) && HandleOk(s, h);
    CountsMoved(s, s', t);
    OthersKept(s, s', t);
    HandlesKept(s, s', t, h);
    OwnedStillSeen(s, s', t, h);
    OnesKept(s, s', t, h);
    forall e: nat | InThread(s, t, e) || InHandle(s, h, e) ensures Covered(s', e) { assert InHandle(s', h, e); }
    CoverKept(s, s', t, h);
  }

  /** The load itself, before its result is used. */
  function Loaded(s: State, t: nat, i: nat): State
    requires t < |s.threads| && i < |s.msgs|
  {
    var th := s.threads[t];
    Put(s, t, th.(clock := Clock(th.clock.events + {s.events}, i), pending := Join(th.pending, s.msgs[i].clock)))
    .(events := s.events + 1, bad := s.bad || s.freed > 0)
  }

  lemma InvLoaded(s: State, t: nat, h: nat, i: nat)
    requires Inv(s) && t < |s.threads| && s.threads[t].pc == GmLoad(h) && s.threads[t].clock.at <= i < |s.msgs|
    ensures Inv(Loaded(s, t, i))
  {
    var s' := Loaded(s, t, i);
    var none := |s.handles|;
    assert Uses(s.threads[t], h);
    LiveIsCounted(s, t, h);
    assert ThreadOk(s, t);
    CountsMoved(s, s', t);
    OthersKept(s, s', t);
    HandlesKept(s, s', t, none);
    OnesKept(s, s', t, none);
    forall e: nat | InThread(s, t, e) || e == s.events ensures Covered(s', e) { assert InThread(s', t, e); }
    CoverKept(s, s', t, none);
  }

  lemma InvSawOne(s: State, t: nat, h: nat)
    requires Inv(s) && t < |s.threads| && s.threads[t].pc == GmLoad(h)
    requires Last(s).value == 1 && Leq(Last(s).clock, Join(s.threads[t].clock, s.threads[t].pending))
    ensures Inv(Put(s, t, s.threads[t].(pc := GmFence(h))))
  {
    var s' := Put(s, t, s.threads[t].(pc := GmFence(h)));
    var none := |s.handles|;
    assert ThreadOk(s, t);
    CountsMoved(s, s', t);
    OthersKept(s, s', t);
    HandlesKept(s, s', t, none);
    OnesKept(s, s', t, none);
    forall e: nat | InThread(s, t, e) ensures Covered(s', e) { assert InThread(s', t, e); }
    CoverKept(s, s', t, none);
  }

  lemma InvGmLoad(s: State, t: nat, h: nat, i: nat)
    requires Inv(s) && t < |s.threads| && s.threads[t].pc == GmLoad(h)
    ensures Inv(GmLoadStep(s, t, h, i))
  {
    if s.threads[t].clock.at <= i < |s.msgs| {
      InvLoaded(s, t, h, i);
      var s1 := Loaded(s, t, i);
      if s.msgs[i].value == 1 {
        OneIsFresh(s, t, h, i);
        InvSawOne(s1, t, h);
        assert GmLoadStep(s, t, h, i) == Put(s1, t, s1.threads[t].(pc := GmFence(h)));
      } else {
        InvOwnEnds(s1, t, h);
      }
    }
  }

  lemma InvWrite(s: State, t: nat, h: nat)
    requires Inv(s) && t < |s.threads| && s.threads[t].pc == Mutating(h)
    ensures Inv(WriteStep(s, t))
  {
    var s' := WriteStep(s, t);
    var none := |s.handles|;
    assert Uses(s.threads[t], h);
    LiveIsCounted(s, t, h);
    NoOtherSpecial(s, t, h);
    AllKnown(s, t);
    assert ThreadOk(s, t);
    CountsMoved(s, s', t);
    OthersKept(s, s', t);
    forall g: nat | g < |s.handles|
      ensures HandleOk(s', g)
    {
      assert HandleOk(s, g);
      if s.handles[g].status == Live {
        OnlyMine(s, t, g);
        assert IsMutating(s', t, g);
      }
    }
    OnesKept(s, s', t, none);
    forall e: nat | InThread(s, t, e) || e == s.events ensures Covered(s', e) { assert InThread(s', t, e); }
    CoverKept(s, s', t, none);
  }

  lemma InvAbort(s: State)
    requires Inv(s)
    ensures Inv(s.(aborted := true))
  {
    var s' := s.(aborted := true);
    assert forall t: nat | t < |s.threads| :: ThreadOk(s, t) ==> ThreadOk(s', t);
    forall h: nat | h < |s.handles|
      ensures HandleOk(s', h) && OnesSeen(s', h)
    {
      assert HandleOk(s, h) && OnesSeen(s, h);
      if u: nat :| IsMutating(s, u, h) { assert IsMutating(s', u, h); }
      forall i: nat | s.handles[h].birth <= i < |s.msgs| - 1 && s.msgs[i].value == 1 && s.handles[h].status == Live
        ensures Knows(s', h, i + 1)
      {
        var j := i + 1;
        assert Knows(s, h, j);
        if u: nat :| Witness(s, u, h, j) { assert Witness(s', u, h, j); }
      }
    }
    forall e: nat | e < s.events
      ensures Covered(s', e)
    {
      assert Covered(s, e);
      if h: nat :| InHandle(s, h, e) { assert InHandle(s', h, e); }
      else if t: nat :| InThread(s, t, e) { assert InThread(s', t, e); }
    }
  }

  lemma StepInv(s: State, t: nat, a: Action)
    requires Inv(s)
    ensures Inv(Step(s, t, a))
  {
    if !s.aborted && t < |s.threads| {
      match s.threads[t].pc
      case Calm =>
        match a {
          case BeginShared(h) => InvBeginShared(s, t, h);
          case EndShared(h) => InvEndShared(s, t, h);
          case Access(h) => InvAccess(s, t, h);
          case Clone(h) => InvClone(s, t, h);
          case BeginDrop(h) => InvBeginOwn(s, t, h, Dropping(h));
          case BeginGetMut(h) => InvBeginOwn(s, t, h, GmLoad(h));
          case _ =>
        }
      case Dropping(h) => InvDrop(s, t, h);
      case DropFence => InvFence(s, t, Freeing);
      case Freeing => InvFree(s, t);
      case GmLoad(h) => if a.Continue? { InvGmLoad(s, t, h, a.i); }
      case GmFence(h) => InvFence(s, t, Mutating(h));
      case Mutating(h) => if a.Write? { InvWrite(s, t, h); } else if a.EndMut? { InvOwnEnds(s, t, h); }
      case Aborting => InvAbort(s);
    }
  }

  lemma {:induction false} RunInv(s: State, sched: seq<(nat, Action)>)
    requires Inv(s)
    ensures Inv(Run(s, sched))
    decreases |sched|
  {
    if sched == [] {
    } else {
      StepInv(s, sched[0].0, sched[0].1);
      RunInv(Step(s, sched[0].0, sched[0].1), sched[1..]);
    }
  }

  lemma {:induction false} RunSnoc(s: State, tr: seq<(nat, Action)>, t: nat, a: Action)
    ensures Run(s, tr + [(t, a)]) == Step(Run(s, tr), t, a)
    decreases |tr|
  {
    if tr == [] {
      assert (tr + [(t, a)])[1..] == [];
    } else {
      assert (tr + [(t, a)])[1..] == tr[1..] + [(t, a)];
      RunSnoc(Step(s, tr[0].0, tr[0].1), tr[1..], t, a);
    }
  }

  // ----- What every run keeps -----

  ghost predicate OnlyLive(s: State, h: nat) {
    h < |s.handles| && s.handles[h].status == Live
    && forall g: nat | g < |s.handles| && g != h :: s.handles[g].status == Gone
  }

  /** Every access to T or to the counter, by any thread through any handle, happens before the block is freed. */
  lemma AccessesHappenBeforeFree(n: nat, sched: seq<(nat, Action)>, t: nat)
    requires n <= MAX / 2
    requires var s := Run(Init(n), sched); t < |s.threads| && s.threads[t].pc.Freeing?
    ensures var s := Run(Init(n), sched);
      && (forall e: nat | e < s.events :: e in s.threads[t].clock.events)
      && (forall h: nat | h < |s.handles| :: s.handles[h].status == Gone)
      && s.freed == 0
  {
    InitInv(n);
    RunInv(Init(n), sched);
    var s := Run(Init(n), sched);
    AllKnown(s, t);
    assert ThreadOk(s, t);
    forall h: nat | h < |s.handles|
      ensures s.handles[h].status == Gone
    {
      SumAtLeast(s.handles, h, Share);
    }
  }

  /**
   When get_mut returns Some, the caller's `Arc` is the only handle and every access so far happens
   before the new mutable borrow; it stays so as long as the borrow lives.
   */
  lemma GetMutIsAlone(n: nat, sched: seq<(nat, Action)>, t: nat)
    requires n <= MAX / 2
    requires var s := Run(Init(n), sched); t < |s.threads| && s.threads[t].pc.Mutating?
    ensures var s := Run(Init(n), sched);
      && (forall e: nat | e < s.events :: e in s.threads[t].clock.events)
      && OnlyLive(s, s.threads[t].pc.h)
      && (forall u: nat | u < |s.threads| && u != t :: !Engaged(s.threads[u]))
  {
    InitInv(n);
    RunInv(Init(n), sched);
    var s := Run(Init(n), sched);
    AllKnown(s, t);
    var h := s.threads[t].pc.h;
    assert ThreadOk(s, t) && Uses(s.threads[t], h);
    forall g: nat | g < |s.handles| && g != h
      ensures s.handles[g].status == Gone
    {
      OnlyReference(s, t, h, g);
    }
    forall u: nat | u < |s.threads| && u != t
      ensures !Engaged(s.threads[u])
    {
      if Engaged(s.threads[u]) {
        var g := UsedHandle(s, u);
        NoOtherSpecial(s, u, g);
      }
    }
  }

  lemma OnlyLiveCounts(s: State, h: nat)
    requires OnlyLive(s, h)
    ensures Sum(s.handles, Share) == 1
  {
    var x := s.handles[h].(status := Gone);
    SumUpdate(s.handles, h, x, Share);
    SumConstant(s.handles[h := x], 0, Share);
  }

  /** Whatever step thread `t` takes now, it then has the `&mut T` of handle `h`. */
  ghost predicate GrantIsNext(s: State, t: nat, h: nat) {
    forall a: Action :: t < |Step(s, t, a).threads| && Step(s, t, a).threads[t].pc == Mutating(h)
  }

  /** What the load of message `i` tells get_mut: to go on to Some, or to end with None. */
  ghost predicate Decides(s: State, t: nat, i: nat)
    requires t < |s.threads| && s.threads[t].pc.GmLoad?
  {
    var h := s.threads[t].pc.h;
    var s' := Step(s, t, Continue(i));
    && t < |s'.threads|
    && (s'.threads[t].pc == GmFence(h) <==> i == |s.msgs| - 1 && OnlyLive(s, h))
    && (s'.threads[t].pc == GmFence(h) ==> GrantIsNext(s', t, h))
    && (s'.threads[t].pc != GmFence(h) ==> s'.threads[t].pc == Calm)
  }

  lemma LoadDecides(s: State, t: nat, i: nat)
    requires Inv(s) && !s.aborted
    requires t < |s.threads| && s.threads[t].pc.GmLoad? && s.threads[t].clock.at <= i < |s.msgs|
    ensures Decides(s, t, i)
  {
    var h := s.threads[t].pc.h;
    assert ThreadOk(s, t) && Uses(s.threads[t], h);
    if s.msgs[i].value == 1 {
      OneIsFresh(s, t, h, i);
      forall g: nat | g < |s.handles| && g != h
        ensures s.handles[g].status == Gone
      {
        OnlyReference(s, t, h, g);
      }
    } else if OnlyLive(s, h) {
      OnlyLiveCounts(s, h);
    }
  }

  /**
   get_mut sees 1, and with its next step has the `&mut T`, if and only if its Relaxed load reads the newest
   message and the caller's `Arc` is the only handle; otherwise the call ends there.
   */
  lemma GetMutDecides(n: nat, sched: seq<(nat, Action)>, t: nat, i: nat)
    requires n <= MAX / 2
    requires var s := Run(Init(n), sched);
      t < |s.threads| && !s.aborted && s.threads[t].pc.GmLoad? && s.threads[t].clock.at <= i < |s.msgs|
    ensures Decides(Run(Init(n), sched), t, i)
  {
    InitInv(n);
    RunInv(Init(n), sched);
    LoadDecides(Run(Init(n), sched), t, i);
  }

  // ----- When a lone `Arc` is certain of Some -----

  /** Every update of the counter happens before a get_mut through `h` that starts now. */
  predicate UpToDate(s: State, t: nat, h: nat)
    requires t < |s.threads| && h < |s.handles|
  {
    Join(Join(s.threads[t].clock, s.handles[h].base), s.handles[h].ended).at == |s.msgs| - 1
  }

  /** The call that others let get to its load ends in Some, if the load can read message `i`. */
  predicate SaysSome(s: State, t: nat, h: nat, i: nat, first: seq<(nat, Action)>, second: seq<(nat, Action)>) {
    var s1 := Run(s, first);
    t < |s1.threads| && !s1.aborted && s1.threads[t].clock.at <= i < |s1.msgs| ==>
      var s3 := Step(Run(Step(s1, t, Continue(i)), second), t, Continue(0));
      s3.aborted || (t < |s3.threads| && s3.threads[t].pc == Mutating(h))
  }

  /**
   Whatever others do meanwhile and whichever message its load reads, the three steps of get_mut end with
   the `&mut T`, unless the process aborts.
   */
  ghost predicate Certain(s: State, t: nat, h: nat) {
    forall i: nat, first: seq<(nat, Action)>, second: seq<(nat, Action)>
      | OthersOnly(t, first) && OthersOnly(t, second) ::
      SaysSome(Step(s, t, BeginGetMut(h)), t, h, i, first, second)
  }

  /** Thread `t` has the only handle, and is up to date when it is about to load the counter. */
  ghost predicate Assured(s: State, t: nat, h: nat) {
    && Inv(s) && t < |s.threads| && OnlyLive(s, h)
    && (|| (s.threads[t].pc == GmLoad(h) && s.threads[t].clock.at == |s.msgs| - 1)
        || s.threads[t].pc == GmFence(h))
  }

  /** Nobody else has a handle to count with. */
  lemma StaysAssured(s: State, t: nat, h: nat, u: nat, a: Action)
    requires Assured(s, t, h) && u != t
    ensures Assured(Step(s, u, a), t, h) && Step(s, u, a).threads[t] == s.threads[t]
  {
    StepInv(s, u, a);
    assert ThreadOk(s, t) && Uses(s.threads[t], h);
    LiveIsCounted(s, t, h);
    if u < |s.threads| {
      assert ThreadOk(s, u);
      if Engaged(s.threads[u]) {
        var g := UsedHandle(s, u);
        LiveIsCounted(s, u, g);
        assert false;
      }
      assert Step(s, u, a) == s || Step(s, u, a) == s.(aborted := true);
    }
  }

  lemma {:induction false} AssuredThroughout(s: State, t: nat, h: nat, more: seq<(nat, Action)>)
    requires Assured(s, t, h) && OthersOnly(t, more)
    ensures Assured(Run(s, more), t, h) && Run(s, more).threads[t] == s.threads[t]
    decreases |more|
  {
    if more == [] {
    } else {
      StaysAssured(s, t, h, more[0].0, more[0].1);
      AssuredThroughout(Step(s, more[0].0, more[0].1), t, h, more[1..]);
    }
  }

  lemma AssuredOfSome(s: State, t: nat, h: nat, i: nat, first: seq<(nat, Action)>, second: seq<(nat, Action)>)
    requires Assured(s, t, h) && s.threads[t].pc == GmLoad(h) && OthersOnly(t, first) && OthersOnly(t, second)
    ensures SaysSome(s, t, h, i, first, second)
  {
    AssuredThroughout(s, t, h, first);
    var s1 := Run(s, first);
    if !s1.aborted && s1.threads[t].clock.at <= i < |s1.msgs| {
      LoadDecides(s1, t, i);
      StepInv(s1, t, Continue(i));
      var s2 := Step(s1, t, Continue(i));
      assert ThreadOk(s1, t);
      AssuredThroughout(s2, t, h, second);
    }
  }

  lemma RefusedOtherwise(s: State, t: nat, h: nat)
    requires Inv(s) && !s.aborted && t < |s.threads| && s.threads[t].pc == GmLoad(h)
    requires !OnlyLive(s, h) || s.threads[t].clock.at != |s.msgs| - 1
    ensures !SaysSome(s, t, h, s.threads[t].clock.at, [], [])
  {
    assert ThreadOk(s, t);
    LoadDecides(s, t, s.threads[t].clock.at);
    var s2 := Step(s, t, Continue(s.threads[t].clock.at));
    assert s2.threads[t].pc == Calm && !s2.aborted;
  }

  /**
   A call of get_mut is certain of Some, whatever others do during the call and however stale its load
   may be, if and only if at its start the caller's `Arc` is the only handle and every update of the
   counter happens before the call.
   */
  lemma CertainOfSome(n: nat, sched: seq<(nat, Action)>, t: nat, h: nat)
    requires n <= MAX / 2
    requires var s := Run(Init(n), sched);
      t < |s.threads| && !s.aborted && s.threads[t].pc.Calm? && CanOwn(s, h)
    ensures var s := Run(Init(n), sched);
      Certain(s, t, h) <==> OnlyLive(s, h) && UpToDate(s, t, h)
  {
    InitInv(n);
    RunInv(Init(n), sched);
    var s := Run(Init(n), sched);
    var s1 := Step(s, t, BeginGetMut(h));
    StepInv(s, t, BeginGetMut(h));
    assert ThreadOk(s1, t);
    if OnlyLive(s, h) && UpToDate(s, t, h) {
      forall i: nat, first: seq<(nat, Action)>, second: seq<(nat, Action)>
        | OthersOnly(t, first) && OthersOnly(t, second)
        ensures SaysSome(s1, t, h, i, first, second)
      {
        AssuredOfSome(s1, t, h, i, first, second);
      }
    } else {
      RefusedOtherwise(s1, t, h);
      var none: seq<(nat, Action)> := [];
      assert OthersOnly(t, none) && !SaysSome(s1, t, h, s1.threads[t].clock.at, none, none);
    }
  }

  ghost predicate Grants(n: nat, sched: seq<(nat, Action)>) {
    0 < |Run(Init(n), sched).threads| && Run(Init(n), sched).threads[0].pc == Mutating(0)
  }

  /** The `&mut T` is reached by some run of any number of threads. */
  lemma SomeIsGranted(n: nat)
    requires 0 < n <= MAX / 2
    ensures exists sched: seq<(nat, Action)> :: Grants(n, sched)
  {
    var s := Init(n);
    var sched: seq<(nat, Action)> := [];
    RunSnoc(s, sched, 0, BeginGetMut(0));
    sched := sched + [(0, BeginGetMut(0))];
    assert CanOwn(s, 0);
    var s1 := Run(s, sched);
    RunSnoc(s, sched, 0, Continue(0));
    sched := sched + [(0, Continue(0))];
    assert Step(s1, 0, Continue(0)) == GmLoadStep(s1, 0, 0, 0);
    RunSnoc(s, sched, 0, Continue(0));
    sched := sched + [(0, Continue(0))];
    assert Grants(n, sched);
  }

  /** Thread 0 has cloned its handle 0. */
  predicate JustCloned(s: State) {
    && |s.threads| == 2 && !s.aborted && s.threads[0].pc == s.threads[1].pc == Calm && s.threads[0].clock.at == 1
    && s.threads[0].shared == s.threads[1].shared == {}
    && |s.handles| == 2 && s.handles[0].status == s.handles[1].status == Live
    && s.handles[0].base.at <= 1 && s.handles[0].ended.at <= 1
    && |s.msgs| == 2 && s.msgs[1].value == 2
  }

  lemma CloneOnce(n: nat)
    requires n == 2
    ensures JustCloned(Step(Step(Step(Init(n), 0, BeginShared(0)), 0, Clone(0)), 0, EndShared(0)))
  {
    var s1 := Step(Init(n), 0, BeginShared(0));
    assert s1.threads[0] == Thread(Calm, Clock({0}, 0), NEVER, {0});
    var s2 := Step(s1, 0, Clone(0));
    assert s2.threads[0].shared == {0} && s2.threads[0].pc == Calm;
  }

  lemma CloneFirst() returns (sched: seq<(nat, Action)>)
    ensures JustCloned(Run(Init(2), sched))
  {
    var s := Init(2);
    CloneOnce(2);
    sched := [];
    RunSnoc(s, sched, 0, BeginShared(0));
    sched := sched + [(0, BeginShared(0))];
    RunSnoc(s, sched, 0, Clone(0));
    sched := sched + [(0, Clone(0))];
    RunSnoc(s, sched, 0, EndShared(0));
    sched := sched + [(0, EndShared(0))];
  }

  /** Thread 1 has dropped the clone, unseen by thread 0. */
  predicate Unseen(s: State) {
    && |s.threads| == 2 && !s.aborted && s.threads[0].pc == s.threads[1].pc == Calm && s.threads[0].clock.at == 1
    && s.threads[0].shared == s.threads[1].shared == {}
    && |s.handles| == 2 && s.handles[0].status == Live && s.handles[1].status == Gone
    && s.handles[0].base.at <= 1 && s.handles[0].ended.at <= 1
    && |s.msgs| == 3 && s.msgs[1].value == 2
  }

  lemma DropUnseen(s: State)
    requires JustCloned(s)
    ensures Unseen(Step(Step(s, 1, BeginDrop(1)), 1, Continue(0)))
  {
    assert Step(s, 1, BeginDrop(1)).threads[1].pc == Dropping(1);
  }

  /** Thread 0 may answer None by reading message `i`, although its handle 0 is the only one. */
  predicate Refused(s: State, i: nat) {
    && 0 < |s.threads| && !s.aborted && s.threads[0].pc == GmLoad(0)
    && 0 < |s.handles| && s.handles[0].status == Live
    && (forall g: nat | 0 < g < |s.handles| :: s.handles[g].status == Gone)
    && s.threads[0].clock.at <= i < |s.msgs|
    && Step(s, 0, Continue(i)).threads[0].pc == Calm
  }

  lemma UnseenRefused(s: State)
    requires Unseen(s)
    ensures Refused(Step(s, 0, BeginGetMut(0)), 1)
  {
    assert CanOwn(s, 0);
  }

  /** So an `Arc` that is alone may be refused: the other handle's drop has not become visible yet. */
  lemma LonelyRefused()
    ensures exists sched: seq<(nat, Action)> :: Refused(Run(Init(2), sched), 1)
  {
    var sched := CloneFirst();
    DropUnseen(Run(Init(2), sched));
    RunSnoc(Init(2), sched, 1, BeginDrop(1));
    sched := sched + [(1, BeginDrop(1))];
    RunSnoc(Init(2), sched, 1, Continue(0));
    sched := sched + [(1, Continue(0))];
    UnseenRefused(Run(Init(2), sched));
    RunSnoc(Init(2), sched, 0, BeginGetMut(0));
    sched := sched + [(0, BeginGetMut(0))];
    assert Refused(Run(Init(2), sched), 1);
  }

  /** No run has a data race or touches a freed block, and the block is freed at most once. */
  lemma NoDataRace(n: nat, sched: seq<(nat, Action)>)
    requires n <= MAX / 2
    ensures var s := Run(Init(n), sched);
      && !s.bad
      && s.freed <= 1
      && (forall h: nat | h < |s.handles| && s.handles[h].status == Live :: s.freed == 0)
  {
    InitInv(n);
    RunInv(Init(n), sched);
    var s := Run(Init(n), sched);
    forall h: nat | h < |s.handles| && s.handles[h].status == Live
      ensures s.freed == 0
    {
      SumAtLeast(s.handles, h, Share);
    }
  }

  /** A thread that may read T through a handle does so behind every write, and the block is there. */
  lemma ReadsAreOrdered(n: nat, sched: seq<(nat, Action)>, t: nat, h: nat)
    requires n <= MAX / 2
    requires var s := Run(Init(n), sched); t < |s.threads| && h in s.threads[t].shared
    ensures var s := Run(Init(n), sched); s.freed == 0 && s.writes <= s.threads[t].clock.events
  {
    InitInv(n);
    RunInv(Init(n), sched);
    var s := Run(Init(n), sched);
    LiveIsCounted(s, t, h);
    assert ThreadOk(s, t) && HandleOk(s, h) && Uses(s.threads[t], h);
    if u: nat :| IsMutating(s, u, h) { assert ThreadOk(s, u); }
  }

  /** No operation is in flight and every handle is gone. */
  predicate AllGone(s: State) {
    && (forall t: nat | t < |s.threads| :: s.threads[t].pc == Calm)
    && (forall h: nat | h < |s.handles| :: s.handles[h].status == Gone)
  }

  /** If no handle and no operation is left, the block was freed. */
  lemma NothingLeaks(n: nat, sched: seq<(nat, Action)>)
    requires n <= MAX / 2 && AllGone(Run(Init(n), sched))
    ensures Run(Init(n), sched).freed == 1
  {
    InitInv(n);
    RunInv(Init(n), sched);
    var s := Run(Init(n), sched);
    SumConstant(s.handles, 0, Share);
    assert s.dropper.By? ==> ThreadOk(s, s.dropper.t);
  }

  /**
   The count is at most `usize::MAX / 2 + 1` plus the threads past the increment but not yet aborted, so
   with at most `usize::MAX / 2` threads no increment wraps around.
   */
  lemma CountNeverWraps(n: nat, sched: seq<(nat, Action)>, t: nat, h: nat)
    requires n <= MAX / 2
    ensures var s := Run(Init(n), sched);
      && s.msgs != []
      && Last(s).value == Sum(s.handles, Share)
      && Last(s).value <= MAX / 2 + 1 + Sum(s.threads, IsAborting)
      && (t < |s.threads| && s.threads[t].pc.Calm? && h in s.threads[t].shared ==>
            Last(CloneStep(s, t, h)).value == Last(s).value + 1)
  {
    InitInv(n);
    RunInv(Init(n), sched);
    var s := Run(Init(n), sched);
    if t < |s.threads| && s.threads[t].pc.Calm? && h in s.threads[t].shared {
      CloneCounts(s, t, h);
    }
  }
}
