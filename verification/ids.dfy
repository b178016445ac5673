/** Two allocators of bounded identifiers, called any number of times by any number of threads. */
module Ids {

  /** The identifiers issued so far are 0, 1, 2 and so on, in this order. */
  predicate GapFree(issued: seq<nat>) {
    forall i | 0 <= i < |issued| :: issued[i] == i
  }

  predicate Distinct(issued: seq<nat>) {
    forall i, j | 0 <= i < j < |issued| :: issued[i] != issued[j]
  }

  function First(n: nat): seq<nat> {
    seq(n, i => i)
  }
}

/** The allocator that retries a compare-exchange. */
module CasIds {
  import opened Ids

  const LIMIT := 1000

  datatype Pc = Idle | Load | Try(id: nat) | Panicked
  datatype State = State(next: nat, issued: seq<nat>, threads: seq<Pc>)

  /**
   `stale` is what a Relaxed load, also that of a failed exchange, may return instead of the newest value;
   the exchange may fail spuriously.
   */
  datatype Choice = Choice(stale: nat, spurious: bool)

  function Goto(s: State, t: nat, pc: Pc): State
    requires t < |s.threads|
  {
    s.(threads := s.threads[t := pc])
  }

  /** The assert at the head of the loop. */
  function Decide(id: nat): Pc {
    if id < LIMIT then Try(id) else Panicked
  }

  /** The counter only grows, one by one, so every number up to the newest value was there. */
  function Loaded(s: State, c: Choice): nat {
    if c.stale <= s.next then c.stale else s.next
  }

  function Step(s: State, t: nat, c: Choice): State {
    if t >= |s.threads| then s else
    match s.threads[t]
    case Idle => Goto(s, t, Load)
    case Load => Goto(s, t, Decide(Loaded(s, c)))
    case Try(id) =>
      if s.next == id && !c.spurious then Goto(s, t, Idle).(next := id + 1, issued := s.issued + [id])
      else Goto(s, t, Decide(Loaded(s, c)))
    case Panicked => s
  }

  function Run(s: State, sched: seq<(nat, Choice)>): State
    decreases |sched|
  {
    if sched == [] then s else Run(Step(s, sched[0].0, sched[0].1), sched[1..])
  }

  function Init(n: nat): State {
    State(0, [], seq(n, _ => Idle))
  }

  ghost predicate Inv(s: State) {
    && GapFree(s.issued) && s.next == |s.issued| <= LIMIT
    && (forall t | 0 <= t < |s.threads| :: s.threads[t].Try? ==> s.threads[t].id < LIMIT)
    && (forall t | 0 <= t < |s.threads| :: s.threads[t].Panicked? ==> s.next == LIMIT)
  }

  lemma {:induction false} RunInv(s: State, sched: seq<(nat, Choice)>)
    requires Inv(s)
    ensures Inv(Run(s, sched))
    decreases |sched|
  {
    if sched == [] {
    } else {
      RunInv(Step(s, sched[0].0, sched[0].1), sched[1..]);
    }
  }

  /**
   The identifiers are issued without gap or repetition and never reach the limit; a call fails only
   after all of them were issued.
   */
  lemma IssuesGapFree(n: nat, sched: seq<(nat, Choice)>)
    ensures var s := Run(Init(n), sched);
      && s.issued == First(|s.issued|) && |s.issued| <= LIMIT
      && Distinct(s.issued)
      && (forall t | 0 <= t < |s.threads| :: s.threads[t].Panicked? ==> |s.issued| == LIMIT)
  {
    RunInv(Init(n), sched);
  }
}

/** The allocator that overshoots and undoes. */
module UndoIds {
  import opened Sums
  import opened Ids

  const LIMIT := 10
  const WORD := 0x1_0000_0000

  datatype Pc = Idle | Over                // `Over`: saw an identifier beyond the limit, about to undo
  datatype State = State(next: nat, issued: seq<nat>, threads: seq<Pc>)

  function Step(s: State, t: nat): State {
    if t >= |s.threads| then s else
    match s.threads[t]
    case Idle =>
      var s1 := s.(next := (s.next + 1) % WORD);
      if LIMIT <= s.next then s1.(threads := s.threads[t := Over]) else s1.(issued := s.issued + [s.next])
    case Over => s.(next := (s.next + WORD - 1) % WORD, threads := s.threads[t := Idle])
  }

  function Run(s: State, sched: seq<nat>): State
    decreases |sched|
  {
    if sched == [] then s else Run(Step(s, sched[0]), sched[1..])
  }

  function Init(n: nat): State {
    State(0, [], seq(n, _ => Idle))
  }

  function IsOver(pc: Pc): nat {
    if pc == Over then 1 else 0
  }

  ghost function Overshoot(s: State): nat {
    Sum(s.threads, IsOver)
  }

  /** The counter is the issued identifiers plus the overshoot, which begins only when all are issued. */
  ghost predicate Inv(s: State) {
    && s.next == (|s.issued| + Overshoot(s)) % WORD
    && |s.issued| <= LIMIT && GapFree(s.issued)
    && (Overshoot(s) > 0 ==> |s.issued| == LIMIT)
    && Overshoot(s) <= |s.threads|
  }

  lemma InitInv(n: nat)
    ensures Inv(Init(n))
  {
    SumConstant(Init(n).threads, 0, IsOver);
  }

  lemma InvUndo(s: State, t: nat)
    requires Inv(s) && |s.threads| <= WORD - LIMIT && t < |s.threads| && s.threads[t] == Over
    ensures Inv(Step(s, t))
  {
    SumUpdate(s.threads, t, Idle, IsOver);
    assert s.next == if LIMIT + Overshoot(s) == WORD then 0 else LIMIT + Overshoot(s);
  }

  lemma StepInv(s: State, t: nat)
    requires Inv(s) && |s.threads| <= WORD - LIMIT
    ensures Inv(Step(s, t))
  {
    if t < |s.threads| {
      if s.threads[t] == Idle {
        SumUpdate(s.threads, t, Over, IsOver);
        SumBounded(s.threads[t := Over], IsOver);
        assert s.next == |s.issued| + Overshoot(s);
      } else {
        InvUndo(s, t);
      }
    }
  }

  lemma {:induction false} RunInv(s: State, sched: seq<nat>)
    requires Inv(s) && |s.threads| <= WORD - LIMIT
    ensures Inv(Run(s, sched))
    decreases |sched|
  {
    if sched == [] {
    } else {
      StepInv(s, sched[0]);
      RunInv(Step(s, sched[0]), sched[1..]);
    }
  }

  /** With few enough threads the identifiers are issued without gap or repetition, at most ten of them. */
  lemma IssuesGapFree(n: nat, sched: seq<nat>)
    requires n <= WORD - LIMIT
    ensures var s := Run(Init(n), sched);
      && s.issued == First(|s.issued|) && |s.issued| <= LIMIT && Distinct(s.issued)
      && s.next == (|s.issued| + Overshoot(s)) % WORD
      && (Overshoot(s) > 0 ==> |s.issued| == LIMIT)
  {
    InitInv(n);
    RunInv(Init(n), sched);
  }

  // ----- With one thread more the counter wraps around and an identifier is issued twice -----

  /** All ten identifiers are issued and the first `k` threads overshoot. */
  predicate Overshooting(s: State, k: nat) {
    && k <= |s.threads| && s.issued == First(LIMIT) && s.next == (LIMIT + k) % WORD
    && forall u | 0 <= u < |s.threads| :: s.threads[u] == if u < k then Over else Idle
  }

  lemma {:induction false} Concat(s: State, a: seq<nat>, b: seq<nat>)
    ensures Run(s, a + b) == Run(Run(s, a), b)
    decreases |a|
  {
    if a == [] {
      assert a + b == b;
    } else {
      assert (a + b)[1..] == a[1..] + b;
      Concat(Step(s, a[0]), a[1..], b);
    }
  }

  lemma {:induction false} IssueFirst(n: nat, k: nat) returns (sched: seq<nat>)
    requires 0 < n && k <= LIMIT
    ensures Run(Init(n), sched) == State(k, First(k), Init(n).threads)
    decreases k
  {
    if k == 0 {
      sched := [];
    } else {
      var before := IssueFirst(n, k - 1);
      Concat(Init(n), before, [0]);
      sched := before + [0];
      assert First(k - 1) + [k - 1] == First(k);
    }
  }

  lemma {:induction false} OvershootMany(n: nat, k: nat) returns (sched: seq<nat>)
    requires 0 < n && k <= n && k <= WORD - LIMIT
    ensures Overshooting(Run(Init(n), sched), k) && |Run(Init(n), sched).threads| == n
    decreases k
  {
    if k == 0 {
      sched := IssueFirst(n, LIMIT);
    } else {
      var before := OvershootMany(n, k - 1);
      Concat(Init(n), before, [k - 1]);
      sched := before + [k - 1];
    }
  }

  lemma IssuesTwice(n: nat)
    requires n > WORD - LIMIT
    ensures exists sched: seq<nat> :: !Distinct(Run(Init(n), sched).issued)
  {
    var k := WORD - LIMIT;
    var before := OvershootMany(n, k);
    var s := Run(Init(n), before);
    Concat(Init(n), before, [k]);
    assert Run(s, [k]) == Step(s, k);
    var twice := Step(s, k).issued;
    assert twice == First(LIMIT) + [0] && twice[0] == twice[LIMIT];
    assert !Distinct(Run(Init(n), before + [k]).issued);
  }

  /** No identifier is ever issued twice if and only if there are at most 2^32 - 10 threads. */
  lemma DistinctIff(n: nat)
    ensures (forall sched: seq<nat> :: Distinct(Run(Init(n), sched).issued)) <==> n <= WORD - LIMIT
  {
    if n <= WORD - LIMIT {
      forall sched: seq<nat>
        ensures Distinct(Run(Init(n), sched).issued)
      {
        IssuesGapFree(n, sched);
      }
    } else {
      IssuesTwice(n);
    }
  }
}
