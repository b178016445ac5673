/**
 The four locks as code that updates the lock word in place. Thread `t` executes one call in turns: its own
 step, and what the other threads do before its next one. A call that is still waiting when its turns are
 used up reports so.

 `Valid` says that the object went through a run of the state machine, so that every property of all
 runs holds of the code.
 */
module LocksCode {
  import opened Basics
  import opened Locks

  type Gap = seq<(nat, Choice)>

  const CALM := Choice(false, 0)

  lemma {:induction false} RunSnoc(v: Variant, s: State, tr: Gap, t: nat, c: Choice)
    ensures Run(v, s, tr + [(t, c)]) == Step(v, Run(v, s, tr), t, c)
  {
    RunConcat(v, s, tr, [(t, c)]);
  }

  /** Another thread's step can only wake thread `t` up. */
  lemma OthersLeaveMe(v: Variant, s: State, total: nat, u: nat, c: Choice, t: nat)
    requires Inv(v, s, total) && t < |s.threads| && u != t
    ensures var s' := Step(v, s, u, c);
      && |s'.threads| == |s.threads|
      && (s'.threads[t] == s.threads[t]
          || (s.threads[t].pc == Asleep && s'.threads[t] == s.threads[t].(pc := Again(v))))
      && (InCritical(s.threads[t].pc) ==> s'.hist == s.hist)
  {
    if u < |s.threads| && s.threads[u].pc.Store? {
      assert ThreadOk(v, s, s.threads[u]);
      OnlyHolder(v, s, total, u);
    }
  }

  // ----- What a call does in its turns -----

  /** What thread `t` leaves to chance in its own step, and what the others do before its next one. */
  datatype Turn = Turn(own: Choice, others: Gap)

  /** The others' steps of a gap; its entries of thread `t` itself are left out. */
  function Meanwhile(v: Variant, s: State, t: nat, gap: Gap): State
    decreases |gap|
  {
    if gap == [] then s
    else Meanwhile(v, if gap[0].0 == t then s else Step(v, s, gap[0].0, gap[0].1), t, gap[1..])
  }

  predicate Arrived(s: State, t: nat) {
    t < |s.threads| && InCritical(s.threads[t].pc)
  }

  /** Thread `t` takes its turns until it has the lock, or as many as there are. */
  function Finish(v: Variant, s: State, t: nat, turns: seq<Turn>, from: nat): State
    decreases |turns| - from
  {
    if from >= |turns| || Arrived(s, t) then s else
    var s1 := Step(v, s, t, turns[from].own);
    if Arrived(s1, t) then s1 else Finish(v, Meanwhile(v, s1, t, turns[from].others), t, turns, from + 1)
  }

  /** The call has begun: thread `t` is about to make its first attempt. */
  function Begun(v: Variant, s: State, t: nat, first: Gap): State {
    Meanwhile(v, Step(v, s, t, CALM), t, first)
  }

  /** The own step with choice `c` is an attempt, the lock is free, and a compare-exchange sees that. */
  predicate Seizes(v: Variant, s: State, t: nat, c: Choice) {
    && t < |s.threads| && s.word == 0
    && match s.threads[t].pc
       case Try => v == SpinLock || v == TwoState || !c.odd
       case Retry => !c.odd
       case Swap => true
       case _ => false
  }

  lemma StepArrives(v: Variant, s: State, t: nat, c: Choice)
    requires (v == TwoState ==> s.word <= 1) && !Arrived(s, t)
    ensures Arrived(Step(v, s, t, c), t) <==> Seizes(v, s, t, c)
  {
  }

  lemma {:induction false} MeanwhileWaits(v: Variant, s: State, total: nat, t: nat, gap: Gap)
    requires Inv(v, s, total) && t < |s.threads| && !Arrived(s, t)
    ensures var s' := Meanwhile(v, s, t, gap); Inv(v, s', total) && t < |s'.threads| && !Arrived(s', t)
    decreases |gap|
  {
    if gap == [] {
    } else if gap[0].0 == t {
      MeanwhileWaits(v, s, total, t, gap[1..]);
    } else {
      StepInv(v, s, total, gap[0].0, gap[0].1);
      OthersLeaveMe(v, s, total, gap[0].0, gap[0].1, t);
      MeanwhileWaits(v, Step(v, s, gap[0].0, gap[0].1), total, t, gap[1..]);
    }
  }

  /** Turn `i` of the call, if it comes to that, takes the lock. */
  ghost predicate SeizesAt(v: Variant, s: State, t: nat, turns: seq<Turn>, from: nat, i: nat) {
    from <= i < |turns| && Seizes(v, Finish(v, s, t, turns[..i], from), t, turns[i].own)
  }

  /** A turn that gets nowhere only moves the start of the call. */
  lemma SeizesLater(v: Variant, s: State, t: nat, turns: seq<Turn>, from: nat, i: nat)
    requires from < |turns| && !Arrived(s, t) && !Arrived(Step(v, s, t, turns[from].own), t) && i != from
    ensures var s2 := Meanwhile(v, Step(v, s, t, turns[from].own), t, turns[from].others);
      SeizesAt(v, s, t, turns, from, i) <==> SeizesAt(v, s2, t, turns, from + 1, i)
  {
    if from < i < |turns| {
      assert turns[..i][from] == turns[from];
    }
  }

  lemma SeizesSometime(v: Variant, s: State, t: nat, turns: seq<Turn>, from: nat, next: nat)
    requires from < |turns| && next == from + 1 && !Arrived(s, t) && !Arrived(Step(v, s, t, turns[from].own), t)
    requires !Seizes(v, s, t, turns[from].own)
    ensures var s2 := Meanwhile(v, Step(v, s, t, turns[from].own), t, turns[from].others);
      (exists i: nat :: SeizesAt(v, s, t, turns, from, i)) <==> (exists i: nat :: SeizesAt(v, s2, t, turns, next, i))
  {
    var s2 := Meanwhile(v, Step(v, s, t, turns[from].own), t, turns[from].others);
    assert !SeizesAt(v, s, t, turns, from, from);
    if i: nat :| SeizesAt(v, s, t, turns, from, i) {
      SeizesLater(v, s, t, turns, from, i);
    }
    if i: nat :| SeizesAt(v, s2, t, turns, next, i) {
      SeizesLater(v, s, t, turns, from, i);
    }
  }

  /** The call gets the lock if and only if one of its attempts finds it free and sees that. */
  lemma {:induction false} TakenWhenFree(v: Variant, s: State, total: nat, t: nat, turns: seq<Turn>, from: nat)
    requires Inv(v, s, total) && t < |s.threads| && !Arrived(s, t)
    ensures Arrived(Finish(v, s, t, turns, from), t) <==> exists i: nat :: SeizesAt(v, s, t, turns, from, i)
    decreases |turns| - from
  {
    if from >= |turns| {
    } else {
      StepArrives(v, s, t, turns[from].own);
      var s1 := Step(v, s, t, turns[from].own);
      if Arrived(s1, t) {
        assert SeizesAt(v, s, t, turns, from, from);
      } else {
        StepInv(v, s, total, t, turns[from].own);
        MeanwhileWaits(v, s1, total, t, turns[from].others);
        TakenWhenFree(v, Meanwhile(v, s1, t, turns[from].others), total, t, turns, from + 1);
        SeizesSometime(v, s, t, turns, from, from + 1);
      }
    }
  }

  /** Whether dropping the guard calls `wake_one`. */
  predicate OwesWake(v: Variant, word: nat) {
    v == TwoState || (v != SpinLock && word == 2)
  }

  /** Sleeper `u` goes back to its lock loop and the waker is done; nobody else moves. */
  predicate WokeSleeper(v: Variant, t: nat, u: nat, s: State, s': State) {
    && IsAsleep(s, u) && t < |s.threads| && u != t
    && s' == Goto(Goto(s, u, Again(v)), t, Idle)
  }

  ghost predicate OneWoken(v: Variant, t: nat, s: State, s': State) {
    if SomeoneAsleep(s) then exists u: nat :: WokeSleeper(v, t, u, s, s')
    else t < |s.threads| && s' == Goto(s, t, Idle)
  }

  class Lock {
    const variant: Variant
    const n: nat
    const k: nat
    var word: nat
    var clock: nat
    var hist: seq<nat>
    var threads: seq<Thread>
    ghost var trace: Gap

    function Abs(): State
      reads this
    {
      State(word, clock, hist, threads)
    }

    ghost predicate Valid()
      reads this
    {
      Abs() == Run(variant, Init(n, k), trace)
    }

    /** The state after the first `j` steps. */
    ghost function At(j: nat): State
      requires j <= |trace|
      reads this
    {
      Run(variant, Init(n, k), trace[..j])
    }

    constructor (variant: Variant, n: nat, k: nat)
      ensures Valid() && this.variant == variant && this.n == n && this.k == k && Abs() == Init(n, k)
    {
      this.variant, this.n, this.k := variant, n, k;
      word, clock, hist := 0, 0, [0];
      threads := Init(n, k).threads;
      trace := [];
    }

    lemma Known()
      requires Valid()
      ensures Inv(variant, Abs(), n * k)
    {
      InitInv(variant, n, k);
      RunInv(variant, Init(n, k), n * k, trace);
    }

    /** The fields have just made step `c` of thread `t`. */
    ghost method Record(before: State, t: nat, c: Choice)
      requires before == Run(variant, Init(n, k), trace) && Abs() == Step(variant, before, t, c)
      modifies this`trace
      ensures Valid() && trace == old(trace) + [(t, c)] && At(|trace| - 1) == before
    {
      RunSnoc(variant, Init(n, k), trace, t, c);
      assert (trace + [(t, c)])[..|trace|] == trace;
      trace := trace + [(t, c)];
    }

    /** What the other threads do meanwhile. */
    method Others(t: nat, gap: Gap)
      requires Valid() && t < |threads|
      modifies this
      ensures Valid() && old(trace) <= trace && |threads| == old(|threads|)
      ensures threads[t] == old(threads[t])
              || (old(threads[t].pc) == Asleep && threads[t] == old(threads[t]).(pc := Again(variant)))
      ensures old(InCritical(threads[t].pc)) ==> hist == old(hist)
      ensures Abs() == Meanwhile(variant, old(Abs()), t, gap)
    {
      for i := 0 to |gap|
        invariant Meanwhile(variant, Abs(), t, gap[i..]) == Meanwhile(variant, old(Abs()), t, gap)
        invariant Valid() && old(trace) <= trace && |threads| == old(|threads|)
        invariant threads[t] == old(threads[t])
                  || (old(threads[t].pc) == Asleep && threads[t] == old(threads[t]).(pc := Again(variant)))
        invariant old(InCritical(threads[t].pc)) ==> hist == old(hist)
      {
        assert gap[i..][1..] == gap[i + 1..];
        if gap[i].0 != t {
          ghost var before := Abs();
          Known();
          OthersLeaveMe(variant, before, n * k, gap[i].0, gap[i].1, t);
          var s := Step(variant, Abs(), gap[i].0, gap[i].1);
          word, clock, hist, threads := s.word, s.clock, s.hist, s.threads;
          Record(before, gap[i].0, gap[i].1);
        }
      }
    }

    /** Thread `t` holds the lock and nobody else does. */
    ghost predicate Holds(t: nat)
      reads this
    {
      && t < |threads| && threads[t].pc == Load && word != 0 && hist != [] && threads[t].view == |hist| - 1
      && forall u: nat | u < |threads| && u != t :: !InCritical(threads[u].pc)
    }

    lemma Entered(t: nat)
      requires Valid() && t < |threads| && threads[t].pc == Load
      ensures Holds(t)
    {
      Known();
      OnlyHolder(variant, Abs(), n * k, t);
      assert ThreadOk(variant, Abs(), threads[t]);
    }

    /** The own step of turn `g` was not the last; now the others take theirs. */
    method EndTurn(t: nat, turns: seq<Turn>, g: nat, ghost before: State) returns (next: nat)
      requires Valid() && t < |threads| && g < |turns| && !Arrived(before, t)
      requires Abs() == Step(variant, before, t, turns[g].own) && !Arrived(Abs(), t)
      modifies this
      ensures Valid() && old(trace) <= trace && |threads| == old(|threads|)
      ensures threads[t] == old(threads[t])
              || (old(threads[t].pc) == Asleep && threads[t] == old(threads[t]).(pc := Again(variant)))
      ensures Abs() == Meanwhile(variant, old(Abs()), t, turns[g].others)
      ensures next == g + 1 && Finish(variant, Abs(), t, turns, next) == Finish(variant, before, t, turns, g)
    {
      Others(t, turns[g].others);
      next := g + 1;
    }

    /** The own step of turn `g` took the lock. */
    lemma EndCall(t: nat, turns: seq<Turn>, g: nat, before: State)
      requires Valid() && t < |threads| && g < |turns| && !Arrived(before, t)
      requires Abs() == Step(variant, before, t, turns[g].own) && threads[t].pc == Load
      ensures Holds(t) && Abs() == Finish(variant, before, t, turns, g)
    {
      Entered(t);
    }

    /** The thread goes on to `pc` without touching the lock word. */
    method Go(t: nat, pc: Pc, ghost c: Choice)
      requires Valid() && t < |threads| && Step(variant, Abs(), t, c) == Goto(Abs(), t, pc)
      modifies this
      ensures Valid() && trace == old(trace) + [(t, c)]
      ensures Abs() == Goto(old(Abs()), t, pc) == Step(variant, old(Abs()), t, c)
    {
      ghost var before := Abs();
      threads := threads[t := threads[t].(pc := pc)];
      Record(before, t, c);
    }

    /** `state.swap(value, Acquire)`; the thread goes on to `free` or to `taken`. */
    method Exchange(t: nat, value: nat, free: Pc, taken: Pc, ghost c: Choice) returns (prev: nat)
      requires Valid() && t < |threads|
      requires Step(variant, Abs(), t, c) == Acquire(Abs(), t, value, if word == 0 then free else taken)
      modifies this
      ensures Valid() && trace == old(trace) + [(t, c)] && prev == old(word)
      ensures Abs() == Acquire(old(Abs()), t, value, if prev == 0 then free else taken)
      ensures Abs() == Step(variant, old(Abs()), t, c)
    {
      ghost var before := Abs();
      prev := word;
      word := value;
      threads := threads[t := threads[t].(pc := if prev == 0 then free else taken,
                                          view := Max(threads[t].view, clock))];
      Record(before, t, c);
    }

    /**
     `state.compare_exchange(0, 1, Acquire, Relaxed)`; after a failure, which a stale load may cause, the
     thread goes on to `taken`.
     */
    method CompareExchange(t: nat, taken: Pc, c: Choice) returns (ok: bool)
      requires Valid() && t < |threads| && Step(variant, Abs(), t, c) == CasStep(Abs(), t, taken, c)
      modifies this
      ensures Valid() && trace == old(trace) + [(t, c)] && ok == (old(word) == 0 && !c.odd)
      ensures Abs() == if ok then Acquire(old(Abs()), t, 1, Load) else Goto(old(Abs()), t, taken)
      ensures Abs() == Step(variant, old(Abs()), t, c)
    {
      ghost var before := Abs();
      ok := word == 0 && !c.odd;
      if ok {
        word := 1;
        threads := threads[t := threads[t].(pc := Load, view := Max(threads[t].view, clock))];
      } else {
        threads := threads[t := threads[t].(pc := taken)];
      }
      Record(before, t, c);
    }

    /** Step `j` is thread `t`'s, and it leads to `pc`. */
    ghost predicate WentTo(j: nat, t: nat, pc: Pc)
      reads this
    {
      j < |trace| && trace[j].0 == t && t < |At(j + 1).threads| && At(j + 1).threads[t].pc == pc
    }

    /** A turn of a sleeper: an `odd` one is a spurious wakeup. `goal` is where the rest of the call leads. */
    method SleepOnce(t: nat, turns: seq<Turn>, g: nat, ghost goal: State) returns (next: nat)
      requires Valid() && t < |threads| && threads[t].pc == Asleep && g < |turns|
      requires Finish(variant, Abs(), t, turns, g) == goal
      modifies this
      ensures Valid() && old(trace) <= trace && |threads| == old(|threads|)
      ensures threads[t].pc == Again(variant) || (threads[t].pc == Asleep && !turns[g].own.odd)
      ensures next == g + 1 && Finish(variant, Abs(), t, turns, next) == goal
    {
      if turns[g].own.odd {
        Go(t, Again(variant), turns[g].own);
      }
      next := EndTurn(t, turns, g, old(Abs()));
    }

    /** A sleeper waits for a `wake_one`. */
    method Sleep(t: nat, turns: seq<Turn>, from: nat, ghost goal: State) returns (next: nat)
      requires Valid() && t < |threads| && (threads[t].pc == Asleep || threads[t].pc == Again(variant))
      requires from <= |turns| && Finish(variant, Abs(), t, turns, from) == goal
      modifies this
      ensures Valid() && old(trace) <= trace && |threads| == old(|threads|) && from <= next <= |turns|
      ensures threads[t].pc == Again(variant) || (next == |turns| && threads[t].pc == Asleep)
      ensures old(threads[t].pc) == Again(variant) ==> next == from && Abs() == old(Abs())
      ensures Finish(variant, Abs(), t, turns, next) == goal
    {
      next := from;
      while next < |turns| && threads[t].pc == Asleep
        invariant Valid() && old(trace) <= trace && |threads| == old(|threads|) && from <= next <= |turns|
        invariant threads[t].pc == Asleep || threads[t].pc == Again(variant)
        invariant old(threads[t].pc) == Again(variant) ==> next == from && Abs() == old(Abs())
        invariant Finish(variant, Abs(), t, turns, next) == goal
      {
        next := SleepOnce(t, turns, next, goal);
      }
    }

    /**
     `wait(&state, Contended)`: returns when woken, or not at all within the turns. It sleeps only on the
     expected value.
     */
    method FutexWait(t: nat, turns: seq<Turn>, from: nat, ghost goal: State) returns (woken: bool, next: nat)
      requires Valid() && t < |threads| && threads[t].pc == Wait && from <= |turns|
      requires Finish(variant, Abs(), t, turns, from) == goal
      modifies this
      ensures Valid() && old(trace) <= trace && |threads| == old(|threads|) && from <= next <= |turns|
      ensures woken ==> threads[t].pc == Again(variant)
      ensures !woken ==> next == |turns| && threads[t].pc == if from < |turns| then Asleep else Wait
      ensures Finish(variant, Abs(), t, turns, next) == goal
      ensures from < |turns| ==>
        WentTo(old(|trace|), t, if old(word) == Contended(variant) then Asleep else Again(variant))
      ensures from < |turns| && old(word) != Contended(variant) ==>
        woken && next == from + 1
        && Abs() == Meanwhile(variant, Goto(old(Abs()), t, Again(variant)), t, turns[from].others)
    {
      next := from;
      if from == |turns| {
        return false, next;
      }
      Go(t, if word != Contended(variant) then Again(variant) else Asleep, turns[from].own);
      ghost var soFar := trace;
      next := EndTurn(t, turns, from, old(Abs()));
      next := Sleep(t, turns, next, goal);
      assert trace[..|soFar|] == soFar == soFar[..|soFar|];
      woken := threads[t].pc != Asleep;
    }

    /** The call begins, and others do `first` before its first attempt. */
    method Begin(t: nat, first: Gap, ghost turns: seq<Turn>)
      requires Valid() && t < |threads| && threads[t].pc == Idle && threads[t].rounds > 0
      modifies this
      ensures Valid() && old(trace) <= trace && |threads| == old(|threads|) && threads[t].pc == Try
      ensures Abs() == old(Begun(variant, Abs(), t, first))
      ensures Arrived(Finish(variant, Abs(), t, turns, 0), t) <==>
              exists i: nat :: SeizesAt(variant, Abs(), t, turns, 0, i)
    {
      Go(t, Try, CALM);
      Others(t, first);
      Known();
      TakenWhenFree(variant, Abs(), n * k, t, turns, 0);
    }

    /** One pass of `while locked.swap(true) { spin_loop() }`. */
    method TryOnce(t: nat, turns: seq<Turn>, g: nat, ghost goal: State) returns (locked: bool, next: nat)
      requires Valid() && variant == SpinLock && t < |threads| && threads[t].pc == Try
      requires g < |turns| && Finish(variant, Abs(), t, turns, g) == goal
      modifies this
      ensures Valid() && old(trace) <= trace && |threads| == old(|threads|) && locked == (old(word) == 0)
      ensures locked ==> Holds(t) && Abs() == goal
      ensures next == g + 1 && (!locked ==> threads[t].pc == Try && Finish(variant, Abs(), t, turns, next) == goal)
    {
      next := g + 1;
      var was := Exchange(t, 1, Load, Try, turns[g].own);
      locked := was == 0;
      if locked {
        EndCall(t, turns, g, old(Abs()));
      } else {
        next := EndTurn(t, turns, g, old(Abs()));
      }
    }

    /** `SpinLock::lock`. */
    method LockSpinLock(t: nat, first: Gap, turns: seq<Turn>) returns (taken: bool)
      requires Valid() && variant == SpinLock && t < |threads| && threads[t].pc == Idle && threads[t].rounds > 0
      modifies this
      ensures Valid() && old(trace) <= trace && |threads| == old(|threads|)
      ensures if taken then Holds(t) else t < |threads| && !InCritical(threads[t].pc)
      ensures Abs() == Finish(variant, old(Begun(variant, Abs(), t, first)), t, turns, 0)
      ensures taken <==> exists i: nat :: SeizesAt(variant, old(Begun(variant, Abs(), t, first)), t, turns, 0, i)
    {
      Begin(t, first, turns);
      ghost var goal := Finish(variant, Abs(), t, turns, 0);
      var g := 0;
      while g < |turns|
        invariant Valid() && old(trace) <= trace && |threads| == old(|threads|) && threads[t].pc == Try
        invariant g <= |turns| && Finish(variant, Abs(), t, turns, g) == goal
      {
        var locked;
        locked, g := TryOnce(t, turns, g, goal);
        if locked {
          return true;
        }
      }
      taken := false;
    }

    /** One pass of `while state.swap(1) == 1 { wait(state, 1) }`. */
    method TryOrWait(t: nat, turns: seq<Turn>, g: nat, ghost goal: State) returns (locked: bool, next: nat)
      requires Valid() && variant == TwoState && t < |threads| && threads[t].pc == Try
      requires g < |turns| && Finish(variant, Abs(), t, turns, g) == goal
      modifies this
      ensures Valid() && old(trace) <= trace && |threads| == old(|threads|) && g < next <= |turns|
      ensures locked == (old(word) == 0)
      ensures locked ==> Holds(t) && Abs() == goal
      ensures !locked ==>
        && (threads[t].pc == Try || (next == |turns| && !InCritical(threads[t].pc)))
        && Finish(variant, Abs(), t, turns, next) == goal
    {
      Known();
      var state := Exchange(t, 1, Load, Wait, turns[g].own);
      locked := state != 1;
      next := g + 1;
      if locked {
        EndCall(t, turns, g, old(Abs()));
      } else {
        next := EndTurn(t, turns, g, old(Abs()));
        var _, after := FutexWait(t, turns, next, goal);
        next := after;
      }
    }

    /** `Mutex::lock` of the two-state mutex. */
    method LockTwoState(t: nat, first: Gap, turns: seq<Turn>) returns (taken: bool)
      requires Valid() && variant == TwoState && t < |threads| && threads[t].pc == Idle && threads[t].rounds > 0
      modifies this
      ensures Valid() && old(trace) <= trace && |threads| == old(|threads|)
      ensures if taken then Holds(t) else t < |threads| && !InCritical(threads[t].pc)
      ensures Abs() == Finish(variant, old(Begun(variant, Abs(), t, first)), t, turns, 0)
      ensures taken <==> exists i: nat :: SeizesAt(variant, old(Begun(variant, Abs(), t, first)), t, turns, 0, i)
    {
      Begin(t, first, turns);
      ghost var goal := Finish(variant, Abs(), t, turns, 0);
      var g := 0;
      while g < |turns|
        invariant g <= |turns|
        invariant Valid() && old(trace) <= trace && |threads| == old(|threads|)
        invariant threads[t].pc == Try || (g == |turns| && !InCritical(threads[t].pc))
        invariant Finish(variant, Abs(), t, turns, g) == goal
        decreases |turns| - g
      {
        var locked;
        locked, g := TryOrWait(t, turns, g, goal);
        if locked {
          return true;
        }
      }
      taken := false;
    }

    /** One pass of `while state.swap(2) != 0 { wait(state, 2) }`. */
    method SwapOrWait(t: nat, turns: seq<Turn>, g: nat, ghost goal: State) returns (locked: bool, next: nat)
      requires Valid() && (variant == ThreeState || variant == Spinning) && t < |threads| && threads[t].pc == Swap
      requires g < |turns| && Finish(variant, Abs(), t, turns, g) == goal
      modifies this
      ensures Valid() && old(trace) <= trace && |threads| == old(|threads|) && g < next <= |turns|
      ensures locked == (old(word) == 0)
      ensures locked ==> Holds(t) && Abs() == goal
      ensures !locked ==>
        && (threads[t].pc == Swap || (next == |turns| && !InCritical(threads[t].pc)))
        && Finish(variant, Abs(), t, turns, next) == goal
    {
      var state := Exchange(t, 2, Load, Wait, turns[g].own);
      locked := state == 0;
      next := g + 1;
      if locked {
        EndCall(t, turns, g, old(Abs()));
      } else {
        next := EndTurn(t, turns, g, old(Abs()));
        var _, after := FutexWait(t, turns, next, goal);
        next := after;
      }
    }

    /** The loop `while state.swap(2) != 0 { wait(state, 2) }` of both three-state mutexes. */
    method LockLoop(t: nat, turns: seq<Turn>, from: nat) returns (taken: bool)
      requires Valid() && (variant == ThreeState || variant == Spinning) && t < |threads| && threads[t].pc == Swap
      requires from <= |turns|
      modifies this
      ensures Valid() && old(trace) <= trace && |threads| == old(|threads|)
      ensures if taken then Holds(t) else t < |threads| && !InCritical(threads[t].pc)
      ensures Abs() == old(Finish(variant, Abs(), t, turns, from))
    {
      ghost var goal := Finish(variant, Abs(), t, turns, from);
      var g := from;
      while g < |turns|
        invariant g <= |turns|
        invariant Valid() && old(trace) <= trace && |threads| == old(|threads|)
        invariant threads[t].pc == Swap || (g == |turns| && !InCritical(threads[t].pc))
        invariant Finish(variant, Abs(), t, turns, g) == goal
        decreases |turns| - g
      {
        var locked;
        locked, g := SwapOrWait(t, turns, g, goal);
        if locked {
          return true;
        }
      }
      taken := false;
    }

    /** `Mutex::lock` of the three-state mutex; its compare-exchange sees a stale word if its turn is `odd`. */
    method LockThreeState(t: nat, first: Gap, turns: seq<Turn>) returns (taken: bool)
      requires Valid() && variant == ThreeState && t < |threads| && threads[t].pc == Idle && threads[t].rounds > 0
      modifies this
      ensures Valid() && old(trace) <= trace && |threads| == old(|threads|)
      ensures if taken then Holds(t) else t < |threads| && !InCritical(threads[t].pc)
      ensures Abs() == Finish(variant, old(Begun(variant, Abs(), t, first)), t, turns, 0)
      ensures taken <==> exists i: nat :: SeizesAt(variant, old(Begun(variant, Abs(), t, first)), t, turns, 0, i)
    {
      Begin(t, first, turns);
      if turns == [] {
        return false;
      }
      ghost var before := Abs();
      var ok := CompareExchange(t, Swap, turns[0].own);
      if ok {
        EndCall(t, turns, 0, before);
        return true;
      }
      var g := EndTurn(t, turns, 0, before);
      taken := LockLoop(t, turns, g);
    }

    /** One load of the spin loop; an `odd` turn says what it sees instead of the word. */
    method SpinOnce(t: nat, turns: seq<Turn>, g: nat, spins: nat, ghost goal: State)
        returns (spinning: bool, next: nat)
      requires Valid() && t < |threads| && threads[t].pc == Spin(spins) && g < |turns|
      requires Finish(variant, Abs(), t, turns, g) == goal
      modifies this
      ensures Valid() && old(trace) <= trace && |threads| == old(|threads|)
      ensures threads[t].pc == if spinning then Spin(spins + 1) else Retry
      ensures spinning <==> (if turns[g].own.odd then turns[g].own.pick else old(word)) == 1 && spins < SPIN_LIMIT
      ensures next == g + 1 && Finish(variant, Abs(), t, turns, next) == goal
    {
      var observed := if turns[g].own.odd then turns[g].own.pick else word;
      spinning := observed == 1 && spins < SPIN_LIMIT;
      Go(t, if spinning then Spin(spins + 1) else Retry, turns[g].own);
      next := EndTurn(t, turns, g, old(Abs()));
    }

    /** The spin loop of `lock_contended`. */
    method SpinAWhile(t: nat, turns: seq<Turn>, from: nat) returns (next: nat)
      requires Valid() && variant == Spinning && t < |threads| && threads[t].pc == Spin(0) && from <= |turns|
      modifies this
      ensures Valid() && old(trace) <= trace && |threads| == old(|threads|) && from <= next <= |turns|
      ensures threads[t].pc == Retry || (next == |turns| && threads[t].pc.Spin?)
      ensures Finish(variant, Abs(), t, turns, next) == old(Finish(variant, Abs(), t, turns, from))
    {
      ghost var goal := Finish(variant, Abs(), t, turns, from);
      next := from;
      var spins, spinning := 0, true;
      while spinning && next < |turns|
        invariant from <= next <= |turns| && spins <= SPIN_LIMIT
        invariant Valid() && old(trace) <= trace && |threads| == old(|threads|)
        invariant threads[t].pc == if spinning then Spin(spins) else Retry
        invariant Finish(variant, Abs(), t, turns, next) == goal
      {
        spinning, next := SpinOnce(t, turns, next, spins, goal);
        if spinning {
          spins := spins + 1;
        }
      }
    }

    /** `lock_contended`: the spin loop, a second compare-exchange and the swap-2 loop. */
    method LockContended(t: nat, turns: seq<Turn>, from: nat) returns (taken: bool)
      requires Valid() && variant == Spinning && t < |threads| && threads[t].pc == Spin(0) && from <= |turns|
      modifies this
      ensures Valid() && old(trace) <= trace && |threads| == old(|threads|)
      ensures if taken then Holds(t) else t < |threads| && !InCritical(threads[t].pc)
      ensures Abs() == old(Finish(variant, Abs(), t, turns, from))
    {
      var g := SpinAWhile(t, turns, from);
      if g == |turns| {
        return false;
      }
      ghost var before := Abs();
      var ok := CompareExchange(t, Swap, turns[g].own);
      if ok {
        EndCall(t, turns, g, before);
        return true;
      }
      g := EndTurn(t, turns, g, before);
      taken := LockLoop(t, turns, g);
    }

    /** `Mutex::lock` of the mutex with a bounded spin. */
    method LockSpinning(t: nat, first: Gap, turns: seq<Turn>) returns (taken: bool)
      requires Valid() && variant == Spinning && t < |threads| && threads[t].pc == Idle && threads[t].rounds > 0
      modifies this
      ensures Valid() && old(trace) <= trace && |threads| == old(|threads|)
      ensures if taken then Holds(t) else t < |threads| && !InCritical(threads[t].pc)
      ensures Abs() == Finish(variant, old(Begun(variant, Abs(), t, first)), t, turns, 0)
      ensures taken <==> exists i: nat :: SeizesAt(variant, old(Begun(variant, Abs(), t, first)), t, turns, 0, i)
    {
      Begin(t, first, turns);
      if turns == [] {
        return false;
      }
      ghost var before := Abs();
      var ok := CompareExchange(t, Spin(0), turns[0].own);
      if ok {
        EndCall(t, turns, 0, before);
        return true;
      }
      var g := EndTurn(t, turns, 0, before);
      taken := LockContended(t, turns, g);
    }

    /**
     The increment under the lock: a Relaxed load that may return any entry not older than the view, then a
     Relaxed store that may be placed anywhere behind it. The lock leaves only the newest entry and the end.
     */
    method Increment(t: nat, entry: nat, gap: Gap, place: nat)
      requires Valid() && Holds(t) && threads[t].view <= entry < |hist| && entry < place <= |hist|
      modifies this
      ensures Valid() && old(trace) <= trace && |threads| == old(|threads|)
      ensures threads[t].pc == Unlock && threads[t].rounds == old(threads[t].rounds) - 1
      ensures hist == old(hist) + [old(hist[|hist| - 1]) + 1] && threads[t].view == place
      ensures Abs() == Step(variant, Meanwhile(variant, Step(variant, old(Abs()), t, Choice(false, entry)), t, gap),
                            t, Choice(false, place))
    {
      ghost var before := Abs();
      var seen := hist[entry];
      threads := threads[t := threads[t].(pc := Store(seen), view := entry)];
      Record(before, t, Choice(false, entry));
      Others(t, gap);
      ghost var middle := Abs();
      Known();
      assert ThreadOk(variant, Abs(), threads[t]);
      var rounds := threads[t].rounds - 1;
      threads := threads[t := threads[t].(pc := Unlock, view := place, rounds := rounds)];
      hist := hist[..place] + [seen + 1] + hist[place..];
      Record(middle, t, Choice(false, place));
    }

    /** The Release store or swap of the word. */
    method FreeWord(t: nat) returns (contended: bool)
      requires Valid() && t < |threads| && threads[t].pc == Unlock
      modifies this
      ensures Valid() && trace == old(trace) + [(t, CALM)] && Abs() == UnlockStep(variant, old(Abs()), t)
      ensures word == 0 && |threads| == old(|threads|) && threads[t].rounds == old(threads[t].rounds)
      ensures contended == OwesWake(variant, old(word)) && threads[t].pc == if contended then Wake else Idle
    {
      ghost var before := Abs();
      contended := OwesWake(variant, word);
      word := 0;
      clock := if variant == SpinLock then threads[t].view else Max(clock, threads[t].view);
      threads := threads[t := threads[t].(pc := if contended then Wake else Idle)];
      Record(before, t, CALM);
    }

    /** Step `j` is the `wake_one` of thread `t`: it wakes exactly one sleeper, if there is any. */
    ghost predicate Woke(t: nat, j: nat)
      reads this
    {
      && j < |trace| && t < |At(j).threads| && At(j).threads[t].pc == Wake
      && OneWoken(variant, t, At(j), At(j + 1))
    }

    /** `wake_one` wakes any one of the sleepers, if there are any. */
    method WakeOne(t: nat)
      requires Valid() && t < |threads| && threads[t].pc == Wake
      modifies this
      ensures Valid() && old(trace) <= trace && |trace| == |old(trace)| + 1 && |threads| == old(|threads|)
      ensures threads[t] == old(threads[t]).(pc := Idle)
      ensures OneWoken(variant, t, old(Abs()), Abs()) && Woke(t, |trace| - 1)
    {
      ghost var before := Abs();
      ghost var c := CALM;
      if SomeoneAsleep(Abs()) {
        var u: nat :| u < |threads| && threads[u].pc == Asleep;
        threads := threads[u := threads[u].(pc := Again(variant))];
        c := Choice(false, u);
      }
      threads := threads[t := threads[t].(pc := Idle)];
      assert SomeoneAsleep(before) ==> WokeSleeper(variant, t, c.pick, before, Abs());
      Record(before, t, c);
      assert trace[..|trace|] == trace;
    }

    /** Dropping the guard frees the word first, and ends with `wake_one` where the lock owes it. */
    method Release(t: nat, gap: Gap)
      requires Valid() && t < |threads| && threads[t].pc == Unlock
      modifies this
      ensures Valid() && old(trace) < trace && |threads| == old(|threads|)
      ensures threads[t].pc == Idle && threads[t].rounds == old(threads[t].rounds)
      ensures At(old(|trace|)) == old(Abs()) && At(old(|trace|) + 1) == UnlockStep(variant, old(Abs()), t)
      ensures At(old(|trace|) + 1).word == 0
      ensures if OwesWake(variant, old(word))
              then Woke(t, |trace| - 1)
                   && At(|trace| - 1) == Meanwhile(variant, UnlockStep(variant, old(Abs()), t), t, gap)
              else Abs() == UnlockStep(variant, old(Abs()), t)
    {
      ghost var soFar := trace;
      var contended := FreeWord(t);
      ghost var freed := trace;
      if contended {
        Others(t, gap);
        ghost var owed := trace;
        WakeOne(t);
        assert trace[..|owed|] == owed;
      }
      assert trace[..|soFar|] == soFar && trace[..|freed|] == freed;
      assert soFar[..|soFar|] == soFar && freed[..|freed|] == freed;
    }
  }
}
