/**
 The channel made of a queue, a mutex and a condition variable, with any number of senders and
 receivers. The mutex is an abstract lock; `wait` releases it and sleeps in one step, and may wake up
 spuriously; `notify_one` wakes one sleeper of the scheduler's choice if there is any.
 */
module QueueChannel {
  import opened Basics
  import opened Sums

  datatype Pc =
    | Idle
    | SendLock(m: nat)
    | SendPush(m: nat)         // holds the lock
    | SendNotify               // pushed and unlocked, about to notify
    | RecvLock
    | RecvCheck(woken: bool)   // holds the lock; `woken` if it comes from wait
    | Asleep
    | Woken                    // about to lock again

  /** `sent` and `received` are the messages in the order of the pushes and of the pops. */
  datatype State = State(queue: seq<nat>, owner: Role, sent: seq<nat>, received: seq<nat>, threads: seq<Pc>)

  datatype Call = Send(m: nat) | Receive
  datatype Choice = Choice(call: Call, spurious: bool, sleeper: nat)

  function Goto(s: State, t: nat, pc: Pc): State
    requires t < |s.threads|
  {
    s.(threads := s.threads[t := pc])
  }

  predicate IsAsleep(s: State, u: nat) {
    u < |s.threads| && s.threads[u] == Asleep
  }

  predicate SomeoneAsleep(s: State) {
    exists u: nat | u < |s.threads| :: IsAsleep(s, u)
  }

  function NotifyStep(s: State, t: nat, sleeper: nat): State
    requires t < |s.threads|
  {
    if IsAsleep(s, sleeper) then Goto(Goto(s, sleeper, Woken), t, Idle)
    else if SomeoneAsleep(s) then s
    else Goto(s, t, Idle)
  }

  function LockStep(s: State, t: nat, pc: Pc): State
    requires t < |s.threads|
  {
    if s.owner == Nobody then Goto(s, t, pc).(owner := By(t)) else s
  }

  /** `pop_front`, and then either return or wait. */
  function CheckStep(s: State, t: nat): State
    requires t < |s.threads|
  {
    if s.queue == [] then Goto(s, t, Asleep).(owner := Nobody)
    else Goto(s, t, Idle).(owner := Nobody, queue := s.queue[1..], received := s.received + [s.queue[0]])
  }

  function Step(s: State, t: nat, c: Choice): State {
    if t >= |s.threads| then s else
    match s.threads[t]
    case Idle => Goto(s, t, match c.call case Send(m) => SendLock(m) case Receive => RecvLock)
    case SendLock(m) => LockStep(s, t, SendPush(m))
    case SendPush(m) =>
      Goto(s, t, SendNotify).(owner := Nobody, queue := s.queue + [m], sent := s.sent + [m])
    case SendNotify => NotifyStep(s, t, c.sleeper)
    case RecvLock => LockStep(s, t, RecvCheck(false))
    case RecvCheck(_) => CheckStep(s, t)
    case Asleep => if c.spurious then Goto(s, t, Woken) else s
    case Woken => LockStep(s, t, RecvCheck(true))
  }

  function Run(s: State, sched: seq<(nat, Choice)>): State
    decreases |sched|
  {
    if sched == [] then s else Run(Step(s, sched[0].0, sched[0].1), sched[1..])
  }

  function Init(n: nat): State {
    State([], Nobody, [], [], seq(n, _ => Idle))
  }

  // ----- The invariant -----

  function Notifies(pc: Pc): nat {
    if pc == SendNotify then 1 else 0
  }

  /** Woken receivers that have not looked at the queue again. */
  function Rechecks(pc: Pc): nat {
    if pc == Woken || pc == RecvCheck(true) then 1 else 0
  }

  predicate HoldsLock(pc: Pc) {
    pc.SendPush? || pc.RecvCheck?
  }

  ghost predicate Owned(s: State, t: nat)
    requires t < |s.threads|
  {
    HoldsLock(s.threads[t]) <==> s.owner == By(t)
  }

  ghost predicate Inv(s: State) {
    && s.sent == s.received + s.queue
    && (SomeoneAsleep(s) ==> |s.queue| <= Sum(s.threads, Notifies) + Sum(s.threads, Rechecks))
    && (forall t: nat | t < |s.threads| :: Owned(s, t))
    && (s.owner.By? ==> s.owner.t < |s.threads|)
  }

  lemma Moved(s: State, t: nat, pc: Pc)
    requires t < |s.threads|
    ensures Sum(s.threads[t := pc], Notifies) + Notifies(s.threads[t]) == Sum(s.threads, Notifies) + Notifies(pc)
    ensures Sum(s.threads[t := pc], Rechecks) + Rechecks(s.threads[t]) == Sum(s.threads, Rechecks) + Rechecks(pc)
  {
    SumUpdate(s.threads, t, pc, Notifies);
    SumUpdate(s.threads, t, pc, Rechecks);
  }

  lemma OwnersKept(s: State, s': State, t: nat)
    requires t < |s.threads| == |s'.threads| && s'.threads == s.threads[t := s'.threads[t]]
    requires forall u: nat | u < |s.threads| :: Owned(s, u)
    requires s'.owner == s.owner || (s.owner in {Nobody, By(t)} && s'.owner in {Nobody, By(t)})
    requires Owned(s', t)
    ensures forall u: nat | u < |s'.threads| :: Owned(s', u)
  {
    forall u: nat | u < |s'.threads|
      ensures Owned(s', u)
    {
      assert Owned(s, u);
    }
  }

  lemma StillAsleep(s: State, s': State, t: nat)
    requires t < |s.threads| == |s'.threads| && s'.threads == s.threads[t := s'.threads[t]]
    requires s'.threads[t] != Asleep && SomeoneAsleep(s')
    ensures SomeoneAsleep(s)
  {
    var u: nat :| u < |s'.threads| && IsAsleep(s', u);
    assert IsAsleep(s, u);
  }

  lemma InvNotify(s: State, t: nat, sleeper: nat)
    requires Inv(s) && t < |s.threads| && s.threads[t] == SendNotify
    ensures Inv(NotifyStep(s, t, sleeper))
  {
    var s' := NotifyStep(s, t, sleeper);
    assert Owned(s, t);
    if IsAsleep(s, sleeper) {
      assert Owned(s, sleeper);
      var s1 := Goto(s, sleeper, Woken);
      Moved(s, sleeper, Woken);
      Moved(s1, t, Idle);
      OwnersKept(s, s1, sleeper);
      OwnersKept(s1, s', t);
      assert SomeoneAsleep(s);
    } else if !SomeoneAsleep(s) {
      OwnersKept(s, s', t);
      if SomeoneAsleep(s') { StillAsleep(s, s', t); }
    }
  }

  lemma StepInv(s: State, t: nat, c: Choice)
    requires Inv(s)
    ensures Inv(Step(s, t, c))
  {
    if t < |s.threads| {
      if s.threads[t] == SendNotify {
        InvNotify(s, t, c.sleeper);
      } else {
        var s' := Step(s, t, c);
        assert Owned(s, t);
        Moved(s, t, s'.threads[t]);
        OwnersKept(s, s', t);
        if s'.threads[t] != Asleep && SomeoneAsleep(s') { StillAsleep(s, s', t); }
      }
    }
  }

  lemma {:induction false} RunInv(s: State, sched: seq<(nat, Choice)>)
    requires Inv(s)
    ensures Inv(Run(s, sched))
    decreases |sched|
  {
    if sched == [] {
    } else {
      StepInv(s, sched[0].0, sched[0].1);
      RunInv(Step(s, sched[0].0, sched[0].1), sched[1..]);
    }
  }

  lemma InitInv(n: nat)
    ensures Inv(Init(n))
  {
    SumConstant(Init(n).threads, 0, Notifies);
  }

  // ----- What every run keeps -----

  /** What was received, followed by what is queued, is what was sent, in order. */
  lemma FirstInFirstOut(n: nat, sched: seq<(nat, Choice)>)
    ensures var s := Run(Init(n), sched); s.sent == s.received + s.queue
  {
    InitInv(n);
    RunInv(Init(n), sched);
  }

  /** While a receiver sleeps, every queued message has a notify or a woken receiver on its way. */
  lemma NoMessageStranded(n: nat, sched: seq<(nat, Choice)>)
    ensures var s := Run(Init(n), sched);
      SomeoneAsleep(s) ==> |s.queue| <= Sum(s.threads, Notifies) + Sum(s.threads, Rechecks)
  {
    InitInv(n);
    RunInv(Init(n), sched);
  }

  // ----- Every call ends, or waits for a message that was not sent -----

  /** Nobody has anything left to do but to wait for a notification. */
  predicate AtRest(s: State) {
    forall t | 0 <= t < |s.threads| :: s.threads[t] == Idle || s.threads[t] == Asleep
  }

  lemma RestMeansEmpty(s: State)
    requires Inv(s) && AtRest(s) && SomeoneAsleep(s)
    ensures s.queue == []
  {
    SumConstant(s.threads, 0, Notifies);
    SumConstant(s.threads, 0, Rechecks);
  }

  function Weight(pc: Pc): nat {
    match pc
    case Idle | Asleep => 0
    case RecvCheck(_) => 1
    case RecvLock | Woken => 2
    case SendNotify => 3
    case SendPush(_) => 4
    case SendLock(_) => 5
  }

  /** Steps that start no new call and are not spurious. */
  predicate Quiet(s: State, t: nat, c: Choice) {
    t < |s.threads| && s.threads[t] != Idle && !c.spurious
  }

  ghost predicate QuietRun(s: State, sched: seq<(nat, Choice)>)
    decreases |sched|
  {
    sched != [] ==> Quiet(s, sched[0].0, sched[0].1) && QuietRun(Step(s, sched[0].0, sched[0].1), sched[1..])
  }

  /** A quiet step changes nothing, or brings the calls in progress closer to their ends. */
  lemma QuietDecreases(s: State, t: nat, c: Choice)
    requires Quiet(s, t, c) && Step(s, t, c) != s
    ensures Sum(Step(s, t, c).threads, Weight) < Sum(s.threads, Weight)
  {
    var s' := Step(s, t, c);
    if s.threads[t] == SendNotify && IsAsleep(s, c.sleeper) {
      SumUpdate(s.threads, c.sleeper, Woken, Weight);
      SumUpdate(s.threads[c.sleeper := Woken], t, Idle, Weight);
    } else {
      assert s'.threads == s.threads[t := s'.threads[t]];
      SumUpdate(s.threads, t, s'.threads[t], Weight);
    }
  }

  /** Unless everything is at rest, some quiet step changes the state. */
  lemma Progress(s: State) returns (t: nat, c: Choice)
    requires Inv(s) && !AtRest(s)
    ensures Quiet(s, t, c) && Step(s, t, c) != s
  {
    c := Choice(Receive, false, 0);
    if s.owner.By? {
      t := s.owner.t;
      assert Owned(s, t);
    } else {
      var u :| 0 <= u < |s.threads| && s.threads[u] != Idle && s.threads[u] != Asleep;
      t := u;
      assert Owned(s, t);
    }
    if s.threads[t] == SendNotify && SomeoneAsleep(s) {
      var u: nat :| u < |s.threads| && IsAsleep(s, u);
      c := Choice(Receive, false, u);
    }
    assert Step(s, t, c).threads[t] != s.threads[t];
  }

  /** The steps of a run that change the state. */
  ghost function Effective(s: State, sched: seq<(nat, Choice)>): nat
    decreases |sched|
  {
    if sched == [] then 0
    else
      var s' := Step(s, sched[0].0, sched[0].1);
      (if s' == s then 0 else 1) + Effective(s', sched[1..])
  }

  lemma {:induction false} EffectiveBounded(s: State, sched: seq<(nat, Choice)>)
    requires QuietRun(s, sched)
    ensures Effective(s, sched) + Sum(Run(s, sched).threads, Weight) <= Sum(s.threads, Weight)
    decreases |sched|
  {
    if sched == [] {
    } else {
      var s' := Step(s, sched[0].0, sched[0].1);
      if s' != s { QuietDecreases(s, sched[0].0, sched[0].1); }
      EffectiveBounded(s', sched[1..]);
    }
  }

  /** No quiet step changes the state. */
  ghost predicate Stuck(s: State) {
    forall t: nat, c: Choice | Quiet(s, t, c) :: Step(s, t, c) == s
  }

  /**
   Without new calls and spurious wakeups the calls in progress end: every such run, whatever the
   schedule, changes the state only so often, and where no step can change it any more every call has
   returned, or sleeps in front of an empty queue.
   */
  lemma CallsFinish(n: nat, sched: seq<(nat, Choice)>, more: seq<(nat, Choice)>)
    requires QuietRun(Run(Init(n), sched), more)
    ensures var s := Run(Init(n), sched); var s' := Run(s, more);
      && Effective(s, more) + Sum(s'.threads, Weight) <= Sum(s.threads, Weight)
      && (Stuck(s') <==> AtRest(s'))
      && (AtRest(s') && SomeoneAsleep(s') ==> s'.queue == [])
  {
    InitInv(n);
    RunInv(Init(n), sched);
    var s := Run(Init(n), sched);
    RunInv(s, more);
    EffectiveBounded(s, more);
    var s' := Run(s, more);
    if AtRest(s') {
      if SomeoneAsleep(s') { RestMeansEmpty(s'); }
    } else {
      var t, c := Progress(s');
    }
  }
}
