/**
 The queue channel as code that updates the queue in place under the lock. A call comes in turns: the
 thread's own step, and what the others do before its next one. A call that is not over when its turns are
 used up reports so.
 */
module QueueChannelCode {
  import opened Basics
  import opened QueueChannel

  type Gap = seq<(nat, Choice)>

  const CALM := Choice(Receive, false, 0)

  datatype Answer = Some(m: nat) | Unfinished

  lemma {:induction false} RunSnoc(s: State, tr: Gap, t: nat, c: Choice)
    ensures Run(s, tr + [(t, c)]) == Step(Run(s, tr), t, c)
    decreases |tr|
  {
    if tr == [] {
      assert (tr + [(t, c)])[1..] == [];
    } else {
      assert (tr + [(t, c)])[1..] == tr[1..] + [(t, c)];
      RunSnoc(Step(s, tr[0].0, tr[0].1), tr[1..], t, c);
    }
  }

  /** Another thread's step can only wake thread `t` up, and does not take its lock. */
  lemma OthersLeaveMe(s: State, u: nat, c: Choice, t: nat)
    requires Inv(s) && t < |s.threads| && u != t
    ensures var s' := Step(s, u, c);
      && |s'.threads| == |s.threads| && s.sent <= s'.sent && s.received <= s'.received
      && (s'.threads[t] == s.threads[t] || (s.threads[t] == Asleep && s'.threads[t] == Woken))
  {
  }

  // ----- What a call does in its turns -----

  /** What thread `t` leaves to chance in its own step, and what the others do before its next one. */
  datatype Turn = Turn(own: Choice, others: Gap)

  /** The others' steps of a gap; its entries of thread `t` itself are left out. */
  function Meanwhile(s: State, t: nat, gap: Gap): State
    decreases |gap|
  {
    if gap == [] then s else Meanwhile(if gap[0].0 == t then s else Step(s, gap[0].0, gap[0].1), t, gap[1..])
  }

  /** The first sleeper from `u` on. */
  function FirstAsleep(s: State, u: nat): (v: nat)
    ensures u <= v && (IsAsleep(s, v) <==> exists w: nat | u <= w :: IsAsleep(s, w))
    decreases |s.threads| - u
  {
    if u >= |s.threads| || IsAsleep(s, u) then u else FirstAsleep(s, u + 1)
  }

  /** `notify_one` wakes the picked thread if it sleeps, and otherwise the first sleeper. */
  function Aim(s: State, c: Choice): Choice {
    c.(sleeper := if IsAsleep(s, c.sleeper) then c.sleeper else FirstAsleep(s, 0))
  }

  function OwnStep(s: State, t: nat, turn: Turn): State {
    Step(s, t, Aim(s, turn.own))
  }

  predicate Over(s: State, t: nat) {
    t < |s.threads| && s.threads[t] == Idle
  }

  /** Thread `t` takes its turns until its call is over, or as many as there are. */
  function Finish(s: State, t: nat, turns: seq<Turn>, from: nat): State
    decreases |turns| - from
  {
    if from >= |turns| || Over(s, t) then s else
    var s1 := OwnStep(s, t, turns[from]);
    if Over(s1, t) then s1 else Finish(Meanwhile(s1, t, turns[from].others), t, turns, from + 1)
  }

  /** The call has begun. */
  function Begun(s: State, t: nat, call: Call, first: Gap): State {
    Meanwhile(Step(s, t, Choice(call, false, 0)), t, first)
  }

  /** Where the lock leads. */
  predicate Locking(pc: Pc, locked: Pc) {
    match pc
    case SendLock(m) => locked == SendPush(m)
    case RecvLock => locked == RecvCheck(false)
    case Woken => locked == RecvCheck(true)
    case _ => false
  }

  /** The own step ends the call: a sender has pushed, or a receiver with the lock finds a message. */
  predicate Ends(s: State, t: nat) {
    t < |s.threads| && (s.threads[t] == SendNotify || (s.threads[t].RecvCheck? && s.queue != []))
  }

  lemma StepEnds(s: State, t: nat, turn: Turn)
    requires t < |s.threads| && !Over(s, t)
    ensures Over(OwnStep(s, t, turn), t) <==> Ends(s, t)
  {
    if s.threads[t] == SendNotify && SomeoneAsleep(s) {
      var u: nat :| u < |s.threads| && IsAsleep(s, u);
      assert IsAsleep(s, Aim(s, turn.own).sleeper);
    }
  }

  lemma ThreadsStay(s: State, t: nat, c: Choice)
    ensures |Step(s, t, c).threads| == |s.threads|
  {
  }

  lemma {:induction false} MeanwhileStays(s: State, t: nat, gap: Gap)
    requires Inv(s) && t < |s.threads|
    ensures var s' := Meanwhile(s, t, gap);
      && Inv(s') && t < |s'.threads|
      && (s'.threads[t] == s.threads[t] || (s.threads[t] == Asleep && s'.threads[t] == Woken))
    decreases |gap|
  {
    if gap == [] {
    } else if gap[0].0 == t {
      MeanwhileStays(s, t, gap[1..]);
    } else {
      StepInv(s, gap[0].0, gap[0].1);
      OthersLeaveMe(s, gap[0].0, gap[0].1, t);
      MeanwhileStays(Step(s, gap[0].0, gap[0].1), t, gap[1..]);
    }
  }

  /** Turn `i` of the call, if it comes to that, ends it. */
  ghost predicate EndsAt(s: State, t: nat, turns: seq<Turn>, from: nat, i: nat) {
    from <= i < |turns| && Ends(Finish(s, t, turns[..i], from), t)
  }

  /** A turn that does not end the call only moves its start. */
  lemma EndsLater(s: State, t: nat, turns: seq<Turn>, from: nat, i: nat)
    requires from < |turns| && !Over(s, t) && !Over(OwnStep(s, t, turns[from]), t) && i != from
    ensures var s2 := Meanwhile(OwnStep(s, t, turns[from]), t, turns[from].others);
      EndsAt(s, t, turns, from, i) <==> EndsAt(s2, t, turns, from + 1, i)
  {
    if from < i < |turns| { assert turns[..i][from] == turns[from]; }
  }

  lemma EndsSometime(s: State, t: nat, turns: seq<Turn>, from: nat, next: nat)
    requires from < |turns| && next == from + 1 && !Over(s, t) && !Over(OwnStep(s, t, turns[from]), t)
    requires !Ends(s, t)
    ensures var s2 := Meanwhile(OwnStep(s, t, turns[from]), t, turns[from].others);
      (exists i: nat :: EndsAt(s, t, turns, from, i)) <==> (exists i: nat :: EndsAt(s2, t, turns, next, i))
  {
    var s2 := Meanwhile(OwnStep(s, t, turns[from]), t, turns[from].others);
    assert !EndsAt(s, t, turns, from, from);
    if i: nat :| EndsAt(s, t, turns, from, i) {
      EndsLater(s, t, turns, from, i);
    }
    if i: nat :| EndsAt(s2, t, turns, next, i) {
      EndsLater(s, t, turns, from, i);
    }
  }

  /** The call is over within its turns if and only if one of its own steps ends it. */
  lemma {:induction false} OverWhenEnded(s: State, t: nat, turns: seq<Turn>, from: nat)
    requires Inv(s) && t < |s.threads| && !Over(s, t)
    ensures Over(Finish(s, t, turns, from), t) <==> exists i: nat :: EndsAt(s, t, turns, from, i)
    decreases |turns| - from
  {
    if from >= |turns| {
    } else {
      StepEnds(s, t, turns[from]);
      var s1 := OwnStep(s, t, turns[from]);
      if Over(s1, t) {
        assert EndsAt(s, t, turns, from, from);
      } else {
        StepInv(s, t, Aim(s, turns[from].own));
        ThreadsStay(s, t, Aim(s, turns[from].own));
        MeanwhileStays(s1, t, turns[from].others);
        OverWhenEnded(Meanwhile(s1, t, turns[from].others), t, turns, from + 1);
        EndsSometime(s, t, turns, from, from + 1);
      }
    }
  }

  /** A sender that finds the lock free and gets two more turns has sent. */
  lemma FreeLockSends(s: State, t: nat, turns: seq<Turn>, from: nat, m: nat)
    requires Inv(s) && t < |s.threads| && s.threads[t] == SendLock(m) && s.owner == Nobody && from + 2 < |turns|
    ensures Over(Finish(s, t, turns, from), t)
  {
    var s1 := OwnStep(s, t, turns[from]);
    StepInv(s, t, Aim(s, turns[from].own));
    MeanwhileStays(s1, t, turns[from].others);
    var s2 := Meanwhile(s1, t, turns[from].others);
    var s3 := OwnStep(s2, t, turns[from + 1]);
    StepInv(s2, t, Aim(s2, turns[from + 1].own));
    MeanwhileStays(s3, t, turns[from + 1].others);
    var s4 := Meanwhile(s3, t, turns[from + 1].others);
    StepEnds(s4, t, turns[from + 2]);
    assert Finish(s4, t, turns, from + 2) == OwnStep(s4, t, turns[from + 2]);
  }

  class Channel {
    const n: nat
    var queue: seq<nat>
    var owner: Role
    var sent: seq<nat>
    var received: seq<nat>
    var threads: seq<Pc>
    ghost var trace: Gap

    function Abs(): State
      reads this
    {
      State(queue, owner, sent, received, threads)
    }

    ghost predicate Valid()
      reads this
    {
      Abs() == Run(Init(n), trace)
    }

    constructor (n: nat)
      ensures Valid() && this.n == n && Abs() == Init(n)
    {
      this.n, queue, owner, sent, received, threads, trace := n, [], Nobody, [], [], Init(n).threads, [];
    }

    lemma Known()
      requires Valid()
      ensures Inv(Abs())
    {
      InitInv(n);
      RunInv(Init(n), trace);
    }

    ghost method Record(before: State, t: nat, c: Choice)
      requires before == Run(Init(n), trace) && Abs() == Step(before, t, c)
      modifies this`trace
      ensures Valid() && trace == old(trace) + [(t, c)]
    {
      RunSnoc(Init(n), trace, t, c);
      trace := trace + [(t, c)];
    }

    method Others(t: nat, gap: Gap)
      requires Valid() && t < |threads|
      modifies this
      ensures Valid() && old(trace) <= trace && old(sent) <= sent && old(received) <= received
      ensures |threads| == old(|threads|)
      ensures threads[t] == old(threads[t]) || (old(threads[t]) == Asleep && threads[t] == Woken)
      ensures Abs() == Meanwhile(old(Abs()), t, gap)
    {
      for i := 0 to |gap|
        invariant Valid() && old(trace) <= trace && old(sent) <= sent && old(received) <= received
        invariant |threads| == old(|threads|)
        invariant threads[t] == old(threads[t]) || (old(threads[t]) == Asleep && threads[t] == Woken)
        invariant Meanwhile(Abs(), t, gap[i..]) == Meanwhile(old(Abs()), t, gap)
      {
        assert gap[i..][1..] == gap[i + 1..];
        if gap[i].0 != t {
          ghost var before := Abs();
          Known();
          OthersLeaveMe(before, gap[i].0, gap[i].1, t);
          var s := Step(Abs(), gap[i].0, gap[i].1);
          queue, owner, sent, received, threads := s.queue, s.owner, s.sent, s.received, s.threads;
          Record(before, gap[i].0, gap[i].1);
        }
      }
    }

    /** The call begins; what decides whether it is over within its turns. */
    method Begin(t: nat, call: Call, pc: Pc, first: Gap, ghost turns: seq<Turn>)
      requires Valid() && t < |threads| && threads[t] == Idle
      requires pc == match call case Send(m) => SendLock(m) case Receive => RecvLock
      modifies this
      ensures Valid() && old(trace) <= trace && old(sent) <= sent && old(received) <= received
      ensures |threads| == old(|threads|) && threads[t] == pc && Abs() == old(Begun(Abs(), t, call, first))
      ensures Over(Finish(Abs(), t, turns, 0), t) <==> exists i: nat :: EndsAt(Abs(), t, turns, 0, i)
    {
      ghost var before := Abs();
      threads := threads[t := pc];
      Record(before, t, Choice(call, false, 0));
      Others(t, first);
      Known();
      OverWhenEnded(Abs(), t, turns, 0);
    }

    /** The own step of turn `g` did not end the call; now the others take theirs. */
    method EndTurn(t: nat, turns: seq<Turn>, g: nat, ghost before: State, ghost goal: State)
      requires Valid() && t < |threads| && g < |turns| && !Over(before, t) && !Over(Abs(), t)
      requires Abs() == OwnStep(before, t, turns[g]) && Finish(before, t, turns, g) == goal
      modifies this
      ensures Valid() && old(trace) <= trace && old(sent) <= sent && old(received) <= received
      ensures |threads| == old(|threads|)
      ensures threads[t] == old(threads[t]) || (old(threads[t]) == Asleep && threads[t] == Woken)
      ensures Finish(Abs(), t, turns, g + 1) == goal
    {
      Others(t, turns[g].others);
    }

    /** A try of `queue.lock()`, or of the lock that `wait` takes again: it succeeds if the lock is free. */
    method TryLock(t: nat, turns: seq<Turn>, g: nat, pc: Pc, ghost goal: State) returns (ok: bool, next: nat)
      requires Valid() && t < |threads| && g < |turns| && Finish(Abs(), t, turns, g) == goal
      requires Locking(threads[t], pc)
      modifies this
      ensures Valid() && old(trace) <= trace && old(sent) <= sent && old(received) <= received
      ensures |threads| == old(|threads|) && threads[t] == (if ok then pc else old(threads[t]))
      ensures ok == (old(owner) == Nobody) && next == g + 1 && Finish(Abs(), t, turns, next) == goal
    {
      next := g + 1;
      ok := owner == Nobody;
      if ok {
        owner := By(t);
        threads := threads[t := pc];
        Record(old(Abs()), t, Aim(old(Abs()), turns[g].own));
      }
      EndTurn(t, turns, g, old(Abs()), goal);
    }

    method Lock(t: nat, turns: seq<Turn>, from: nat, pc: Pc, ghost goal: State) returns (ok: bool, next: nat)
      requires Valid() && t < |threads| && from <= |turns| && Finish(Abs(), t, turns, from) == goal
      requires Locking(threads[t], pc)
      modifies this
      ensures Valid() && old(trace) <= trace && old(sent) <= sent && old(received) <= received
      ensures |threads| == old(|threads|) && from <= next <= |turns| && (!ok ==> next == |turns|)
      ensures threads[t] == (if ok then pc else old(threads[t])) && Finish(Abs(), t, turns, next) == goal
    {
      ok, next := false, from;
      while next < |turns| && !ok
        invariant Valid() && old(trace) <= trace && old(sent) <= sent && old(received) <= received
        invariant |threads| == old(|threads|) && from <= next <= |turns|
        invariant threads[t] == (if ok then pc else old(threads[t])) && Finish(Abs(), t, turns, next) == goal
      {
        ok, next := TryLock(t, turns, next, pc, goal);
      }
    }

    /** `push_back(m)`, and the guard is dropped. */
    method Push(t: nat, m: nat, ghost c: Choice)
      requires Valid() && t < |threads| && threads[t] == SendPush(m)
      modifies this
      ensures Valid() && old(trace) <= trace && sent == old(sent) + [m] && received == old(received)
      ensures |threads| == old(|threads|) && threads[t] == SendNotify && Abs() == Step(old(Abs()), t, c)
    {
      ghost var before := Abs();
      queue := queue + [m];
      sent := sent + [m];
      owner := Nobody;
      threads := threads[t := SendNotify];
      Record(before, t, c);
    }

    /** Wakes a sleeper if there is any, the picked one if it sleeps. */
    method NotifyOne(t: nat, turn: Turn)
      requires Valid() && t < |threads| && threads[t] == SendNotify
      modifies this
      ensures Valid() && old(trace) <= trace && sent == old(sent) && received == old(received)
      ensures |threads| == old(|threads|) && threads[t] == Idle && Abs() == OwnStep(old(Abs()), t, turn)
      ensures old(SomeoneAsleep(Abs())) ==>
                exists u: nat | u < |threads| ::
                  old(threads)[u] == Asleep && threads == old(threads)[u := Woken][t := Idle]
    {
      ghost var before := Abs();
      var u := Aim(Abs(), turn.own).sleeper;
      assert SomeoneAsleep(before) ==> IsAsleep(before, u) by {
        if SomeoneAsleep(before) {
          var w: nat :| w < |threads| && IsAsleep(before, w);
        }
      }
      if SomeoneAsleep(Abs()) {
        threads := threads[u := Woken];
      }
      threads := threads[t := Idle];
      Record(before, t, Aim(before, turn.own));
    }

    /** The part of send behind the lock. */
    method PushAndNotify(t: nat, m: nat, turns: seq<Turn>, g: nat, ghost goal: State) returns (ok: bool)
      requires Valid() && t < |threads| && threads[t] == SendPush(m) && g <= |turns|
      requires Finish(Abs(), t, turns, g) == goal
      modifies this
      ensures Valid() && old(trace) <= trace && old(sent) <= sent && old(received) <= received
      ensures |threads| == old(|threads|) && Abs() == goal && ok == (threads[t] == Idle) == (g + 1 < |turns|)
      ensures ok ==> old(|sent|) < |sent| && sent[old(|sent|)] == m
    {
      if g == |turns| {
        return false;
      }
      Push(t, m, Aim(Abs(), turns[g].own));
      ghost var pushed := sent;
      EndTurn(t, turns, g, old(Abs()), goal);
      assert sent[..|pushed|] == pushed;
      ok := g + 1 < |turns|;
      if ok {
        NotifyOne(t, turns[g + 1]);
      }
    }

    /** The message goes behind every message pushed before. */
    method SendMessage(t: nat, m: nat, first: Gap, turns: seq<Turn>) returns (ok: bool)
      requires Valid() && t < |threads| && threads[t] == Idle
      modifies this
      ensures Valid() && old(trace) <= trace && old(sent) <= sent && old(received) <= received
      ensures |threads| == old(|threads|) && (ok ==> threads[t] == Idle)
      ensures ok ==> exists k: nat :: old(|sent|) <= k < |sent| && sent[k] == m
      ensures sent == received + queue
      ensures Abs() == Finish(old(Begun(Abs(), t, Call.Send(m), first)), t, turns, 0)
      ensures ok <==> exists i: nat :: EndsAt(old(Begun(Abs(), t, Call.Send(m), first)), t, turns, 0, i)
    {
      Begin(t, Call.Send(m), SendLock(m), first, turns);
      ghost var goal := Finish(Abs(), t, turns, 0);
      var locked, g := Lock(t, turns, 0, SendPush(m), goal);
      ok := false;
      if locked {
        ghost var k := |sent|;
        ok := PushAndNotify(t, m, turns, g, goal);
        assert ok ==> old(|sent|) <= k < |sent| && sent[k] == m;
      }
      Known();
    }

    /** `m` is the message received last, and was sent in this place. */
    predicate LastReceived(m: nat)
      reads this
    {
      0 < |received| <= |sent| && received[|received| - 1] == sent[|received| - 1] == m
    }

    method PopFront(t: nat, ghost c: Choice) returns (m: nat)
      requires Valid() && t < |threads| && threads[t].RecvCheck? && queue != []
      modifies this
      ensures Valid() && old(trace) <= trace && sent == old(sent) && received == old(received) + [m]
      ensures |threads| == old(|threads|) && threads[t] == Idle && Abs() == Step(old(Abs()), t, c)
      ensures LastReceived(m)
    {
      ghost var before := Abs();
      m := queue[0];
      queue := queue[1..];
      received := received + [m];
      owner := Nobody;
      threads := threads[t := Idle];
      Record(before, t, c);
      Known();
    }

    /** A turn of a sleeper may be a spurious wakeup. */
    method SleepTurn(t: nat, turns: seq<Turn>, g: nat, ghost goal: State)
      requires Valid() && t < |threads| && threads[t] == Asleep && g < |turns| && Finish(Abs(), t, turns, g) == goal
      modifies this
      ensures Valid() && old(trace) <= trace && old(sent) <= sent && old(received) <= received
      ensures |threads| == old(|threads|) && Finish(Abs(), t, turns, g + 1) == goal
      ensures threads[t] == Woken || (threads[t] == Asleep && !turns[g].own.spurious)
    {
      if turns[g].own.spurious {
        threads := threads[t := Woken];
        Record(old(Abs()), t, Aim(old(Abs()), turns[g].own));
      }
      EndTurn(t, turns, g, old(Abs()), goal);
    }

    /** `wait` unlocks and sleeps, until a `notify_one` or a spurious wakeup. */
    method Sleep(t: nat, turns: seq<Turn>, from: nat, ghost goal: State) returns (next: nat)
      requires Valid() && t < |threads| && threads[t].RecvCheck? && queue == [] && from < |turns|
      requires Finish(Abs(), t, turns, from) == goal
      modifies this
      ensures Valid() && old(trace) <= trace && old(sent) <= sent && old(received) <= received
      ensures |threads| == old(|threads|) && from < next <= |turns| && Finish(Abs(), t, turns, next) == goal
      ensures threads[t] == Woken || (threads[t] == Asleep && next == |turns|)
    {
      owner := Nobody;
      threads := threads[t := Asleep];
      Record(old(Abs()), t, Aim(old(Abs()), turns[from].own));
      EndTurn(t, turns, from, old(Abs()), goal);
      next := from + 1;
      while next < |turns| && threads[t] == Asleep
        invariant Valid() && old(trace) <= trace && old(sent) <= sent && old(received) <= received
        invariant |threads| == old(|threads|) && from < next <= |turns|
        invariant (threads[t] == Woken || threads[t] == Asleep) && Finish(Abs(), t, turns, next) == goal
      {
        SleepTurn(t, turns, next, goal);
        next := next + 1;
      }
    }

    /** `item_ready.wait(queue)`: unlock and sleep, wake up, lock again. */
    method Wait(t: nat, turns: seq<Turn>, from: nat, ghost goal: State) returns (ok: bool, next: nat)
      requires Valid() && t < |threads| && threads[t].RecvCheck? && queue == [] && from < |turns|
      requires Finish(Abs(), t, turns, from) == goal
      modifies this
      ensures Valid() && old(trace) <= trace && old(sent) <= sent && old(received) <= received
      ensures |threads| == old(|threads|) && from < next <= |turns| && (!ok ==> next == |turns|)
      ensures if ok then threads[t] == RecvCheck(true) else threads[t] == Asleep || threads[t] == Woken
      ensures Finish(Abs(), t, turns, next) == goal
    {
      next := Sleep(t, turns, from, goal);
      ok := threads[t] == Woken;
      if ok {
        ok, next := Lock(t, turns, next, RecvCheck(true), goal);
      }
    }

    /** The loop of receive: a message under the lock, or `wait`. */
    method ReceiveLoop(t: nat, turns: seq<Turn>, from: nat, ghost goal: State) returns (r: Answer)
      requires Valid() && t < |threads| && threads[t].RecvCheck? && from <= |turns|
      requires Finish(Abs(), t, turns, from) == goal
      modifies this
      ensures Valid() && old(trace) <= trace && old(sent) <= sent && old(received) <= received
      ensures |threads| == old(|threads|) && Abs() == goal && (r.Some? <==> threads[t] == Idle)
      ensures r.Some? ==> old(received) < received
      ensures r.Some? ==> LastReceived(r.m)
    {
      var g, ok := from, true;
      while ok && g < |turns|
        invariant Valid() && old(trace) <= trace && old(sent) <= sent && old(received) <= received
        invariant |threads| == old(|threads|) && g <= |turns| && (!ok ==> g == |turns|)
        invariant if ok then threads[t].RecvCheck? else threads[t] == Asleep || threads[t] == Woken
        invariant Finish(Abs(), t, turns, g) == goal
        decreases |turns| - g
      {
        if queue != [] {
          var m := PopFront(t, Aim(Abs(), turns[g].own));
          return Some(m);
        }
        ok, g := Wait(t, turns, g, goal);
      }
      r := Unfinished;
    }

    /** The k-th message received is the k-th message sent. */
    method ReceiveMessage(t: nat, first: Gap, turns: seq<Turn>) returns (r: Answer)
      requires Valid() && t < |threads| && threads[t] == Idle
      modifies this
      ensures Valid() && old(trace) <= trace && old(sent) <= sent && old(received) <= received
      ensures |threads| == old(|threads|)
      ensures r.Some? ==> threads[t] == Idle && old(received) < received
      ensures r.Some? ==> LastReceived(r.m)
      ensures Abs() == Finish(old(Begun(Abs(), t, Call.Receive, first)), t, turns, 0)
      ensures r.Some? <==> exists i: nat :: EndsAt(old(Begun(Abs(), t, Call.Receive, first)), t, turns, 0, i)
    {
      Begin(t, Call.Receive, RecvLock, first, turns);
      ghost var goal := Finish(Abs(), t, turns, 0);
      var ok, g := Lock(t, turns, 0, RecvCheck(false), goal);
      if ok {
        r := ReceiveLoop(t, turns, g, goal);
      } else {
        r := Unfinished;
      }
    }
  }
}
