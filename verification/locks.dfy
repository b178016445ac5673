/**
 The four locks of the repository as one family of state machines over any number of threads:
 the spin lock, the two-state futex mutex, the three-state futex mutex and the three-state mutex
 with a bounded spin. One step is one atomic operation, one futex call or one access to the
 protected counter, taken by an arbitrary thread.

 A compare-exchange of the word succeeds only on the newest value, but it may fail, and the spin loop may
 go on, by a stale one.

 The protected counter is read with a plain load and written with a separate plain store. Both are
 Relaxed: `hist` is the modification order of the counter, `view` the newest entry of it that
 happens before the thread, and `clock` the newest entry released through the lock word. A load may
 return any entry not older than the view; a store may be placed anywhere after it.
 */
module Locks {
  import opened Basics
  import opened Sums

  datatype Variant = SpinLock | TwoState | ThreeState | Spinning

  datatype Pc =
    | Idle          // between two rounds
    | Try           // first attempt: swap(1) or compare_exchange(0, 1)
    | Spin(count: nat)
    | Retry         // second compare_exchange(0, 1)
    | Swap          // swap(2) of the contended loop
    | Wait          // about to call wait
    | Asleep
    | Load          // lock held, about to load the counter
    | Store(seen: nat)
    | Unlock        // lock held, about to drop the guard
    | Wake          // lock released, about to call wake_one

  datatype Thread = Thread(pc: Pc, rounds: nat, view: nat)
  datatype State = State(word: nat, clock: nat, hist: seq<nat>, threads: seq<Thread>)

  /** What the scheduler, the memory and the futex are free to choose in one step. */
  datatype Choice = Choice(odd: bool, pick: nat)

  const SPIN_LIMIT := 100

  function Goto(s: State, t: nat, pc: Pc): State
    requires t < |s.threads|
  {
    s.(threads := s.threads[t := s.threads[t].(pc := pc)])
  }

  /** An Acquire read-modify-write of the lock word: it passes the released clock on. */
  function Acquire(s: State, t: nat, word: nat, pc: Pc): State
    requires t < |s.threads|
  {
    var th := s.threads[t];
    s.(word := word, threads := s.threads[t := th.(pc := pc, view := Max(th.view, s.clock))])
  }

  /** The value of the lock word on which `wait` sleeps. */
  function Contended(v: Variant): nat {
    if v.TwoState? then 1 else 2
  }

  /** Where the loop around `wait` continues. */
  function Again(v: Variant): Pc {
    if v.TwoState? then Try else Swap
  }

  /** `compare_exchange(0, 1, Acquire, Relaxed)`: if `odd`, its load sees a stale value and it fails. */
  function CasStep(s: State, t: nat, failed: Pc, c: Choice): State
    requires t < |s.threads|
  {
    if s.word == 0 && !c.odd then Acquire(s, t, 1, Load) else Goto(s, t, failed)
  }

  function TryStep(v: Variant, s: State, t: nat, c: Choice): State
    requires t < |s.threads|
  {
    match v
    case SpinLock => Acquire(s, t, 1, if s.word != 0 then Try else Load)
    case TwoState => Acquire(s, t, 1, if s.word == 1 then Wait else Load)
    case ThreeState => CasStep(s, t, Swap, c)
    case Spinning => CasStep(s, t, Spin(0), c)
  }

  /** The Relaxed load of the spin loop sees the current word or, if `odd`, any stale value. */
  function SpinStep(s: State, t: nat, count: nat, c: Choice): State
    requires t < |s.threads|
  {
    var observed := if c.odd then c.pick else s.word;
    Goto(s, t, if observed == 1 && count < SPIN_LIMIT then Spin(count + 1) else Retry)
  }

  function LoadStep(s: State, t: nat, c: Choice): State
    requires t < |s.threads|
  {
    var th := s.threads[t];
    if th.view <= c.pick < |s.hist| then
      s.(threads := s.threads[t := th.(pc := Store(s.hist[c.pick]), view := c.pick)])
    else s
  }

  /** An entry of the modification order moves up when a store is placed at or below it. */
  function Shift(view: nat, p: nat): nat {
    if p <= view then view + 1 else view
  }

  function StoreStep(s: State, t: nat, seen: nat, c: Choice): State
    requires t < |s.threads|
  {
    var th := s.threads[t];
    var th' := th.(pc := Unlock, view := c.pick, rounds := if th.rounds > 0 then th.rounds - 1 else 0);
    if c.pick == |s.hist| then
      s.(hist := s.hist + [seen + 1], threads := s.threads[t := th'])
    else if th.view < c.pick < |s.hist| then
      var moved := seq(|s.threads|, i requires 0 <= i < |s.threads| =>
                    s.threads[i].(view := Shift(s.threads[i].view, c.pick)));
      s.(hist := s.hist[..c.pick] + [seen + 1] + s.hist[c.pick..],
         clock := Shift(s.clock, c.pick), threads := moved[t := th'])
    else s
  }

  /** Dropping the guard: a Release store for the spin lock, a Release swap for the mutexes. */
  function UnlockStep(v: Variant, s: State, t: nat): State
    requires t < |s.threads|
  {
    var view := s.threads[t].view;
    match v
    case SpinLock => Goto(s, t, Idle).(word := 0, clock := view)
    case TwoState => Goto(s, t, Wake).(word := 0, clock := Max(s.clock, view))
    case _ => Goto(s, t, if s.word == 2 then Wake else Idle).(word := 0, clock := Max(s.clock, view))
  }

  predicate IsAsleep(s: State, u: nat) {
    u < |s.threads| && s.threads[u].pc == Asleep
  }

  predicate SomeoneAsleep(s: State) {
    exists u: nat | u < |s.threads| :: IsAsleep(s, u)
  }

  /** `wake_one` wakes one sleeper of the scheduler's choice if there is any. */
  function WakeStep(v: Variant, s: State, t: nat, c: Choice): State
    requires t < |s.threads|
  {
    if IsAsleep(s, c.pick) then Goto(Goto(s, c.pick, Again(v)), t, Idle)
    else if SomeoneAsleep(s) then s
    else Goto(s, t, Idle)
  }

  /** One step of thread `t`; a step that cannot be taken leaves the state as it is. */
  function Step(v: Variant, s: State, t: nat, c: Choice): State {
    if t >= |s.threads| then s else
    match s.threads[t].pc
    case Idle => if s.threads[t].rounds > 0 then Goto(s, t, Try) else s
    case Try => TryStep(v, s, t, c)
    case Spin(count) => SpinStep(s, t, count, c)
    case Retry => CasStep(s, t, Swap, c)
    case Swap => Acquire(s, t, 2, if s.word != 0 then Wait else Load)
    case Wait => Goto(s, t, if s.word == Contended(v) then Asleep else Again(v))
    case Asleep => if c.odd then Goto(s, t, Again(v)) else s
    case Load => LoadStep(s, t, c)
    case Store(seen) => StoreStep(s, t, seen, c)
    case Unlock => UnlockStep(v, s, t)
    case Wake => WakeStep(v, s, t, c)
  }

  function Run(v: Variant, s: State, sched: seq<(nat, Choice)>): State
    decreases |sched|
  {
    if sched == [] then s
    else Run(v, Step(v, s, sched[0].0, sched[0].1), sched[1..])
  }

  /** `n` threads that each take the lock `k` times. */
  function Init(n: nat, k: nat): State {
    State(0, 0, [0], seq(n, _ => Thread(Idle, k, 0)))
  }

  // ----- The invariant -----

  predicate InCritical(pc: Pc) {
    pc.Load? || pc.Store? || pc.Unlock?
  }

  function Holds(th: Thread): nat {
    if InCritical(th.pc) then 1 else 0
  }

  function Rounds(th: Thread): nat {
    th.rounds
  }

  predicate Reaches(v: Variant, pc: Pc) {
    match v
    case SpinLock => pc.Idle? || pc.Try? || InCritical(pc)
    case TwoState => !pc.Spin? && !pc.Retry? && !pc.Swap?
    case ThreeState => !pc.Spin? && !pc.Retry?
    case Spinning => true
  }

  ghost predicate ThreadOk(v: Variant, s: State, th: Thread)
    requires s.hist != []
  {
    && Reaches(v, th.pc)
    && th.view < |s.hist|
    && (!th.pc.Idle? && !th.pc.Unlock? && !th.pc.Wake? ==> th.rounds > 0)
    && (InCritical(th.pc) ==> th.view == |s.hist| - 1)
    && (th.pc.Store? ==> th.pc.seen == s.hist[|s.hist| - 1])
    && (th.pc.Spin? ==> th.pc.count <= SPIN_LIMIT)
  }

  ghost predicate At(s: State, pc: Pc, t: nat) {
    t < |s.threads| && s.threads[t].pc == pc
  }

  /** A sleeper is covered by the word, by a pending `wake_one` or by an awake thread about to swap. */
  ghost predicate Covered(v: Variant, s: State) {
    || s.word == Contended(v)
    || (exists t: nat :: At(s, Wake, t))
    || (exists t: nat :: At(s, Again(v), t))
  }

  ghost predicate Inv(v: Variant, s: State, total: nat) {
    && s.hist != []
    && s.clock < |s.hist|
    && s.word <= (if v.SpinLock? || v.TwoState? then 1 else 2)
    && Sum(s.threads, Holds) == (if s.word == 0 then 0 else 1)
    && (s.word == 0 ==> s.clock == |s.hist| - 1)
    && (forall t: nat | t < |s.threads| :: ThreadOk(v, s, s.threads[t]))
    && s.hist[|s.hist| - 1] + Sum(s.threads, Rounds) == total
    && (SomeoneAsleep(s) ==> Covered(v, s))
  }

  lemma InitInv(v: Variant, n: nat, k: nat)
    ensures Inv(v, Init(n, k), n * k)
  {
    var s := Init(n, k);
    SumConstant(s.threads, 0, Holds);
    SumConstant(s.threads, k, Rounds);
  }

  /** Both sums after one thread has moved. */
  lemma Moved(s: State, t: nat, th: Thread)
    requires t < |s.threads|
    ensures Sum(s.threads[t := th], Holds) + Holds(s.threads[t]) == Sum(s.threads, Holds) + Holds(th)
    ensures Sum(s.threads[t := th], Rounds) + s.threads[t].rounds == Sum(s.threads, Rounds) + th.rounds
  {
    SumUpdate(s.threads, t, th, Holds);
    SumUpdate(s.threads, t, th, Rounds);
  }

  /** While a thread is inside, the word is taken and nobody else is inside. */
  lemma OnlyHolder(v: Variant, s: State, total: nat, t: nat)
    requires Inv(v, s, total) && t < |s.threads| && InCritical(s.threads[t].pc)
    ensures s.word != 0
    ensures forall u: nat | u < |s.threads| && u != t :: !InCritical(s.threads[u].pc)
  {
    SumAtLeast(s.threads, t, Holds);
    forall u: nat | u < |s.threads| && u != t
      ensures !InCritical(s.threads[u].pc)
    {
      SumAtLeastTwo(s.threads, if u < t then u else t, if u < t then t else u, Holds);
    }
  }

  /** Sleepers and covers of `s` that a step of `t` leaves alone. */
  lemma CoverKept(v: Variant, s: State, s': State, t: nat)
    requires SomeoneAsleep(s) ==> Covered(v, s)
    requires t < |s.threads| == |s'.threads|
    requires forall u: nat | u < |s.threads| && u != t :: s'.threads[u].pc == s.threads[u].pc
    requires s'.threads[t].pc != Asleep
    requires s.threads[t].pc != Wake && s.threads[t].pc != Again(v)
    requires s.word == Contended(v) ==> s'.word == s.word || s'.threads[t].pc == Wake
    ensures SomeoneAsleep(s') ==> Covered(v, s')
  {
    if SomeoneAsleep(s') {
      var u: nat :| u < |s'.threads| && IsAsleep(s', u);
      assert IsAsleep(s, u);
      if s.word == Contended(v) {
        assert s'.word == s.word || At(s', Wake, t);
      } else if x: nat :| At(s, Wake, x) {
        assert At(s', Wake, x);
      } else {
        var x: nat :| At(s, Again(v), x);
        assert At(s', Again(v), x);
      }
    }
  }

  /** A thread outside that is not the cover of a sleeper. */
  predicate Plain(v: Variant, pc: Pc) {
    !InCritical(pc) && pc != Asleep && pc != Wake && pc != Again(v)
  }

  lemma InvGo(v: Variant, s: State, total: nat, t: nat, pc: Pc)
    requires Inv(v, s, total) && t < |s.threads| && Plain(v, s.threads[t].pc)
    requires !InCritical(pc) && pc != Asleep && ThreadOk(v, s, s.threads[t].(pc := pc))
    ensures Inv(v, Goto(s, t, pc), total)
  {
    var s' := Goto(s, t, pc);
    Moved(s, t, s'.threads[t]);
    CoverKept(v, s, s', t);
  }

  /** The word goes from 0 to 1. */
  lemma InvTake(v: Variant, s: State, total: nat, t: nat)
    requires Inv(v, s, total) && t < |s.threads| && Plain(v, s.threads[t].pc)
    requires s.word == 0 && s.threads[t].rounds > 0
    ensures Inv(v, Acquire(s, t, 1, Load), total)
  {
    var s' := Acquire(s, t, 1, Load);
    Moved(s, t, s'.threads[t]);
    CoverKept(v, s, s', t);
  }

  lemma InvCas(v: Variant, s: State, total: nat, t: nat, failed: Pc, c: Choice)
    requires Inv(v, s, total) && t < |s.threads| && Plain(v, s.threads[t].pc) && s.threads[t].rounds > 0
    requires (failed == Swap && Reaches(v, Swap)) || (failed == Spin(0) && v == Spinning)
    ensures Inv(v, CasStep(s, t, failed, c), total)
  {
    if s.word == 0 && !c.odd {
      InvTake(v, s, total, t);
    } else {
      InvGo(v, s, total, t, failed);
    }
  }

  lemma InvTry(v: Variant, s: State, total: nat, t: nat, c: Choice)
    requires Inv(v, s, total) && t < |s.threads| && s.threads[t].pc == Try && v != TwoState
    ensures Inv(v, TryStep(v, s, t, c), total)
  {
    assert ThreadOk(v, s, s.threads[t]);
    if v != SpinLock {
      InvCas(v, s, total, t, if v == ThreeState then Swap else Spin(0), c);
    } else if s.word == 0 {
      InvTake(v, s, total, t);
    } else {
      var s' := TryStep(v, s, t, c);
      Moved(s, t, s'.threads[t]);
      CoverKept(v, s, s', t);
    }
  }

  lemma InvLocking(v: Variant, s: State, total: nat, t: nat, c: Choice)
    requires Inv(v, s, total) && t < |s.threads|
    requires var pc := s.threads[t].pc; pc.Idle? || pc.Try? || pc.Spin? || pc.Retry? || pc.Swap?
    requires s.threads[t].pc != Again(v)
    ensures Inv(v, Step(v, s, t, c), total)
  {
    assert ThreadOk(v, s, s.threads[t]);
    match s.threads[t].pc
    case Idle => if s.threads[t].rounds > 0 { InvGo(v, s, total, t, Try); }
    case Try => InvTry(v, s, total, t, c);
    case Spin(count) => InvGo(v, s, total, t, Step(v, s, t, c).threads[t].pc);
    case Retry => InvCas(v, s, total, t, Swap, c);
    case Swap =>
  }

  /** The operation that a woken thread tries again leaves the contended mark. */
  lemma InvAgain(v: Variant, s: State, total: nat, t: nat, c: Choice)
    requires Inv(v, s, total) && t < |s.threads| && s.threads[t].pc == Again(v)
    ensures Inv(v, Step(v, s, t, c), total)
  {
    var s' := Step(v, s, t, c);
    Moved(s, t, s'.threads[t]);
    assert s'.threads == s.threads[t := s'.threads[t]];
    assert s'.word == Contended(v);
  }

  lemma InvWaiting(v: Variant, s: State, total: nat, t: nat, c: Choice)
    requires Inv(v, s, total) && t < |s.threads|
    requires var pc := s.threads[t].pc; pc.Wait? || pc.Asleep?
    ensures Inv(v, Step(v, s, t, c), total)
  {
    var s' := Step(v, s, t, c);
    Moved(s, t, s'.threads[t]);
    assert s'.threads == s.threads[t := s'.threads[t]];
    if s'.threads[t].pc == Again(v) {
      assert At(s', Again(v), t);
    }
  }

  lemma InvLoad(v: Variant, s: State, total: nat, t: nat, c: Choice)
    requires Inv(v, s, total) && t < |s.threads| && s.threads[t].pc == Load
    ensures Inv(v, Step(v, s, t, c), total)
  {
    var s' := Step(v, s, t, c);
    if s.threads[t].view <= c.pick < |s.hist| {
      assert s' == LoadStep(s, t, c) && ThreadOk(v, s, s.threads[t]);
      Moved(s, t, s'.threads[t]);
      CoverKept(v, s, s', t);
    }
  }

  lemma InvStore(v: Variant, s: State, total: nat, t: nat, c: Choice)
    requires Inv(v, s, total) && t < |s.threads| && s.threads[t].pc.Store?
    ensures Inv(v, Step(v, s, t, c), total)
  {
    var s' := Step(v, s, t, c);
    if c.pick == |s.hist| {
      OnlyHolder(v, s, total, t);
      Moved(s, t, s'.threads[t]);
      CoverKept(v, s, s', t);
      forall u: nat | u < |s'.threads|
        ensures ThreadOk(v, s', s'.threads[u])
      {
        assert ThreadOk(v, s, s.threads[u]);
      }
    } else {
      assert s' == s;
    }
  }

  lemma InvUnlock(v: Variant, s: State, total: nat, t: nat)
    requires Inv(v, s, total) && t < |s.threads| && s.threads[t].pc == Unlock
    ensures Inv(v, UnlockStep(v, s, t), total)
  {
    var s' := UnlockStep(v, s, t);
    OnlyHolder(v, s, total, t);
    Moved(s, t, s'.threads[t]);
    assert s'.threads == s.threads[t := s'.threads[t]];
    if v.SpinLock? {
      assert forall u: nat | u < |s'.threads| :: s'.threads[u].pc != Asleep;
    } else {
      CoverKept(v, s, s', t);
    }
  }

  /** A sleeper that goes back to its loop covers the others. */
  lemma InvWoken(v: Variant, s: State, total: nat, u: nat)
    requires Inv(v, s, total) && IsAsleep(s, u)
    ensures Inv(v, Goto(s, u, Again(v)), total) && At(Goto(s, u, Again(v)), Again(v), u)
  {
    assert ThreadOk(v, s, s.threads[u]);
    Moved(s, u, s.threads[u].(pc := Again(v)));
    assert At(Goto(s, u, Again(v)), Again(v), u);
  }

  lemma InvWakerDone(v: Variant, s: State, total: nat, t: nat, u: nat)
    requires Inv(v, s, total) && At(s, Wake, t) && At(s, Again(v), u)
    ensures Inv(v, Goto(s, t, Idle), total)
  {
    assert ThreadOk(v, s, s.threads[t]);
    Moved(s, t, s.threads[t].(pc := Idle));
    assert At(Goto(s, t, Idle), Again(v), u);
  }

  lemma InvWake(v: Variant, s: State, total: nat, t: nat, c: Choice)
    requires Inv(v, s, total) && t < |s.threads| && s.threads[t].pc == Wake
    ensures Inv(v, Step(v, s, t, c), total)
  {
    var s' := Step(v, s, t, c);
    if IsAsleep(s, c.pick) {
      InvWoken(v, s, total, c.pick);
      InvWakerDone(v, Goto(s, c.pick, Again(v)), total, t, c.pick);
    } else if !SomeoneAsleep(s) {
      Moved(s, t, s'.threads[t]);
      assert forall u: nat | u < |s.threads| :: IsAsleep(s', u) ==> IsAsleep(s, u);
    }
  }

  lemma StepInv(v: Variant, s: State, total: nat, t: nat, c: Choice)
    requires Inv(v, s, total)
    ensures Inv(v, Step(v, s, t, c), total)
  {
    if t < |s.threads| {
      match s.threads[t].pc
      case Wait | Asleep => InvWaiting(v, s, total, t, c);
      case Load => InvLoad(v, s, total, t, c);
      case Store(_) => InvStore(v, s, total, t, c);
      case Unlock => InvUnlock(v, s, total, t);
      case Wake => InvWake(v, s, total, t, c);
      case pc =>
        if pc == Again(v) { InvAgain(v, s, total, t, c); } else { InvLocking(v, s, total, t, c); }
    }
  }

  lemma {:induction false} RunInv(v: Variant, s: State, total: nat, sched: seq<(nat, Choice)>)
    requires Inv(v, s, total)
    ensures Inv(v, Run(v, s, sched), total)
    decreases |sched|
  {
    if sched == [] {
    } else {
      StepInv(v, s, total, sched[0].0, sched[0].1);
      RunInv(v, Step(v, s, sched[0].0, sched[0].1), total, sched[1..]);
    }
  }

  // ----- What every run keeps -----

  /** At most one thread is inside, and exactly when the word is not 0. */
  lemma MutualExclusion(v: Variant, n: nat, k: nat, sched: seq<(nat, Choice)>)
    ensures var s := Run(v, Init(n, k), sched);
      && (forall t: nat, u: nat | t < u < |s.threads| ::
            !(InCritical(s.threads[t].pc) && InCritical(s.threads[u].pc)))
      && (s.word != 0 <==> exists t: nat :: t < |s.threads| && InCritical(s.threads[t].pc))
  {
    var s := Run(v, Init(n, k), sched);
    InitInv(v, n, k);
    RunInv(v, Init(n, k), n * k, sched);
    forall t: nat, u: nat | t < u < |s.threads|
      ensures !(InCritical(s.threads[t].pc) && InCritical(s.threads[u].pc))
    {
      SumAtLeastTwo(s.threads, t, u, Holds);
    }
    if s.word != 0 {
      var t := SumPositive(s.threads, Holds);
      assert InCritical(s.threads[t].pc);
    } else if t: nat :| t < |s.threads| && InCritical(s.threads[t].pc) {
      OnlyHolder(v, s, n * k, t);
    }
  }

  /** Whoever is inside sees the newest value of the counter, although every access is Relaxed. */
  lemma HolderIsUpToDate(v: Variant, n: nat, k: nat, sched: seq<(nat, Choice)>, t: nat)
    requires var s := Run(v, Init(n, k), sched); t < |s.threads| && InCritical(s.threads[t].pc)
    ensures var s := Run(v, Init(n, k), sched);
      s.hist != [] && s.threads[t].view == |s.hist| - 1
  {
    InitInv(v, n, k);
    RunInv(v, Init(n, k), n * k, sched);
  }

  /** Only the spinning mutex spins, at most a hundred times. */
  lemma SpinIsBounded(v: Variant, n: nat, k: nat, sched: seq<(nat, Choice)>, t: nat)
    requires var s := Run(v, Init(n, k), sched); t < |s.threads| && s.threads[t].pc.Spin?
    ensures v == Spinning && Run(v, Init(n, k), sched).threads[t].pc.count <= 100
  {
    InitInv(v, n, k);
    RunInv(v, Init(n, k), n * k, sched);
    var s := Run(v, Init(n, k), sched);
    assert ThreadOk(v, s, s.threads[t]);
  }

  lemma NoLostWakeup(v: Variant, n: nat, k: nat, sched: seq<(nat, Choice)>)
    ensures var s := Run(v, Init(n, k), sched);
      SomeoneAsleep(s) ==>
        || s.word == Contended(v)
        || (exists t: nat :: At(s, Wake, t))
        || (exists t: nat :: At(s, Again(v), t))
  {
    InitInv(v, n, k);
    RunInv(v, Init(n, k), n * k, sched);
  }

  ghost predicate Finished(s: State) {
    forall t: nat | t < |s.threads| :: s.threads[t].pc == Idle && s.threads[t].rounds == 0
  }

  /** `n` threads that each add one `k` times under the lock leave exactly `n * k`. */
  lemma CounterIsExact(v: Variant, n: nat, k: nat, sched: seq<(nat, Choice)>)
    requires Finished(Run(v, Init(n, k), sched))
    ensures var s := Run(v, Init(n, k), sched);
      s.hist != [] && s.hist[|s.hist| - 1] == n * k && s.word == 0
  {
    InitInv(v, n, k);
    RunInv(v, Init(n, k), n * k, sched);
    var s := Run(v, Init(n, k), sched);
    SumConstant(s.threads, 0, Rounds);
    SumConstant(s.threads, 0, Holds);
  }

  // ----- Nobody is stuck -----

  /** How far a thread is into its round. */
  function Into(pc: Pc): nat {
    match pc
    case Asleep | Wait => 1
    case Spin(_) => 2
    case Try | Retry | Swap => 3
    case Load => 4
    case Store(_) => 5
    case _ => 0
  }

  /** Bounds the steps that a well-chosen schedule still needs for one thread. */
  function Weight(th: Thread): nat {
    match th.pc
    case Unlock => 16 * th.rounds + 3
    case Wake => 16 * th.rounds + 2
    case pc => if th.rounds == 0 then 0 else 16 * th.rounds - Into(pc)
  }

  ghost function Measure(s: State): nat {
    Sum(s.threads, Weight)
  }

  lemma OneMoves(v: Variant, s: State, total: nat, t: nat, c: Choice)
    requires Inv(v, s, total) && t < |s.threads|
    requires s.word == 0 || InCritical(s.threads[t].pc)
    requires !s.threads[t].pc.Asleep? && !s.threads[t].pc.Wake?
    requires s.threads[t].pc != Idle || s.threads[t].rounds > 0
    requires c == Choice(false, if s.threads[t].pc.Load? then |s.hist| - 1 else |s.hist|)
    ensures Measure(Step(v, s, t, c)) < Measure(s)
  {
    var s' := Step(v, s, t, c);
    assert ThreadOk(v, s, s.threads[t]);
    assert s'.threads == s.threads[t := s'.threads[t]];
    SumUpdate(s.threads, t, s'.threads[t], Weight);
  }

  lemma WakerMoves(v: Variant, s: State, total: nat, t: nat) returns (c: Choice)
    requires Inv(v, s, total) && t < |s.threads| && s.threads[t].pc == Wake
    ensures Measure(Step(v, s, t, c)) < Measure(s)
  {
    c := Choice(false, 0);
    if SomeoneAsleep(s) {
      var u: nat :| u < |s.threads| && IsAsleep(s, u);
      c := Choice(false, u);
      var s1 := Goto(s, u, Again(v));
      assert ThreadOk(v, s, s.threads[u]);
      SumUpdate(s.threads, u, s1.threads[u], Weight);
      SumUpdate(s1.threads, t, s1.threads[t].(pc := Idle), Weight);
    } else {
      SumUpdate(s.threads, t, s.threads[t].(pc := Idle), Weight);
    }
  }

  /** With the word free and no waker about, someone unfinished is awake: the sleepers' cover says so. */
  lemma SomeoneAwake(v: Variant, s: State, total: nat) returns (t: nat)
    requires Inv(v, s, total) && !Finished(s) && s.word == 0
    requires forall u: nat :: !At(s, Wake, u)
    ensures t < |s.threads| && !IsAsleep(s, t) && (s.threads[t].pc != Idle || s.threads[t].rounds > 0)
  {
    var u: nat :| u < |s.threads| && !(s.threads[u].pc == Idle && s.threads[u].rounds == 0);
    t := u;
    if IsAsleep(s, u) {
      var x: nat :| At(s, Again(v), x);
      t := x;
    }
  }

  /** An unfinished state has a step that brings the end closer. */
  lemma Progress(v: Variant, s: State, total: nat) returns (t: nat, c: Choice)
    requires Inv(v, s, total) && !Finished(s)
    ensures Measure(Step(v, s, t, c)) < Measure(s)
  {
    if s.word != 0 {
      t := SumPositive(s.threads, Holds);
    } else if u: nat :| At(s, Wake, u) {
      t := u;
      c := WakerMoves(v, s, total, t);
      return;
    } else {
      t := SomeoneAwake(v, s, total);
      assert !At(s, Wake, t);
    }
    c := Choice(false, if s.threads[t].pc.Load? then |s.hist| - 1 else |s.hist|);
    OneMoves(v, s, total, t, c);
  }

  lemma {:induction false} CompletionFrom(v: Variant, s: State, total: nat) returns (sched: seq<(nat, Choice)>)
    requires Inv(v, s, total)
    ensures Finished(Run(v, s, sched))
    decreases Measure(s)
  {
    sched := [];
    if !Finished(s) {
      var t, c := Progress(v, s, total);
      StepInv(v, s, total, t, c);
      var rest := CompletionFrom(v, Step(v, s, t, c), total);
      sched := [(t, c)] + rest;
      assert sched[1..] == rest;
    }
  }

  lemma {:induction false} RunConcat(v: Variant, s: State, a: seq<(nat, Choice)>, b: seq<(nat, Choice)>)
    ensures Run(v, s, a + b) == Run(v, Run(v, s, a), b)
    decreases |a|
  {
    if a == [] {
      assert a + b == b;
    } else {
      assert (a + b)[1..] == a[1..] + b;
      RunConcat(v, Step(v, s, a[0].0, a[0].1), a[1..], b);
    }
  }

  /** From every reachable state some continuation finishes every thread, with the word free and the count exact. */
  lemma AlwaysCompletable(v: Variant, n: nat, k: nat, sched: seq<(nat, Choice)>)
    ensures exists more: seq<(nat, Choice)> ::
      var s := Run(v, Init(n, k), sched + more);
      Finished(s) && s.word == 0 && !SomeoneAsleep(s) && s.hist != [] && s.hist[|s.hist| - 1] == n * k
  {
    InitInv(v, n, k);
    RunInv(v, Init(n, k), n * k, sched);
    var more := CompletionFrom(v, Run(v, Init(n, k), sched), n * k);
    RunConcat(v, Init(n, k), sched, more);
    CounterIsExact(v, n, k, sched + more);
  }

  // ----- One abstract lock -----

  datatype AbstractLock = Free | Held(owner: nat)

  /** The specification of all four locks: thread `t` does nothing, takes a free lock or frees its own. */
  predicate AbstractStep(a: AbstractLock, t: nat, b: AbstractLock) {
    a == b || (a == Free && b == Held(t)) || (a == Held(t) && b == Free)
  }

  predicate Inside(s: State, t: nat) {
    t < |s.threads| && InCritical(s.threads[t].pc)
  }

  ghost function Owner(s: State): AbstractLock {
    if t: nat :| Inside(s, t) then Held(t) else Free
  }

  lemma OwnerIs(v: Variant, s: State, total: nat, t: nat)
    requires Inv(v, s, total) && Inside(s, t)
    ensures Owner(s) == Held(t)
  {
    OnlyHolder(v, s, total, t);
    var u := Owner(s).owner;
    assert Inside(s, u);
  }

  lemma OthersStayInside(v: Variant, s: State, total: nat, t: nat, c: Choice)
    requires Inv(v, s, total)
    ensures forall u: nat | u != t :: Inside(s, u) <==> Inside(Step(v, s, t, c), u)
  {
    if t < |s.threads| {
      match s.threads[t].pc
      case Try => assert Step(v, s, t, c) == TryStep(v, s, t, c);
      case Spin(count) => assert Step(v, s, t, c) == SpinStep(s, t, count, c);
      case Load => assert Step(v, s, t, c) == LoadStep(s, t, c);
      case Store(seen) => assert Step(v, s, t, c) == StoreStep(s, t, seen, c);
      case Unlock => assert Step(v, s, t, c) == UnlockStep(v, s, t);
      case Wake => assert Step(v, s, t, c) == WakeStep(v, s, t, c);
      case _ =>
    }
  }

  lemma ForwardSimulation(v: Variant, n: nat, k: nat, sched: seq<(nat, Choice)>, t: nat, c: Choice)
    ensures var s := Run(v, Init(n, k), sched);
      && AbstractStep(Owner(s), t, Owner(Step(v, s, t, c)))
      && (s.word == 0 <==> Owner(s) == Free)
    ensures Owner(Init(n, k)) == Free
  {
    var total := n * k;
    InitInv(v, n, k);
    RunInv(v, Init(n, k), total, sched);
    var s := Run(v, Init(n, k), sched);
    var s' := Step(v, s, t, c);
    StepInv(v, s, total, t, c);
    MutualExclusion(v, n, k, sched);
    OthersStayInside(v, s, total, t, c);
    if s.word != 0 {
      var h: nat :| h < |s.threads| && InCritical(s.threads[h].pc);
      assert Inside(s, h);
    }
    if u: nat :| Inside(s', u) {
      OwnerIs(v, s', total, u);
      if u != t || Inside(s, t) {
        OwnerIs(v, s, total, u);
      } else if x: nat :| Inside(s, x) {
        assert Inside(s', x);
        OwnerIs(v, s', total, x);
      }
    } else if x: nat :| Inside(s, x) {
      OwnerIs(v, s, total, x);
    }
  }
}
