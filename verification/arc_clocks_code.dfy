/**
 The one-counter `Arc` as code that appends to the modification order of the counter in place, with the
 steps of other threads in the gaps between its operations. A call comes in turns: its own step, and what
 the others do before its next one.
 */
module ArcClocksCode {
  import opened Basics
  import opened References
  import opened Usize
  import opened ArcClocks

  type Gap = seq<(nat, Action)>

  datatype Answer = Some(i: nat) | None | Unfinished

  /** The steps of other threads leave thread `t` alone and bring no handle back. */
  lemma OthersLeaveMe(s: State, u: nat, a: Action, t: nat)
    requires t < |s.threads| && u != t
    ensures var s' := Step(s, u, a);
      && |s'.threads| == |s.threads| && s'.threads[t] == s.threads[t]
  {
  }

  lemma HandlesStay(s: State, u: nat, a: Action, h: nat)
    requires h < |s.handles|
    ensures var s' := Step(s, u, a);
      h < |s'.handles| && (s.handles[h].status == Gone ==> s'.handles[h].status == Gone)
  {
  }

  // ----- What a call does in its turns -----

  /** Which message a load of the own step reads, and what the others do before the next one. */
  datatype Turn = Turn(read: nat, others: Gap)

  /** A turn in which nobody else moves. */
  const QUIET := Turn(0, [])

  /** The others' steps of a gap; its entries of thread `t` itself are left out. */
  function Meanwhile(s: State, t: nat, gap: Gap): State
    decreases |gap|
  {
    if gap == [] then s else Meanwhile(if gap[0].0 == t then s else Step(s, gap[0].0, gap[0].1), t, gap[1..])
  }

  /** Message `i`, or the newest if the thread must know better or there is no message `i`. */
  function Readable(s: State, t: nat, i: nat): nat {
    if t < |s.threads| && s.msgs != [] && !(s.threads[t].clock.at <= i < |s.msgs|) then |s.msgs| - 1 else i
  }

  function OwnStep(s: State, t: nat, turn: Turn): State {
    Step(s, t, Continue(Readable(s, t, turn.read)))
  }

  /** The call has returned, or the process is no more. */
  predicate Done(s: State, t: nat) {
    s.aborted || (t < |s.threads| && (s.threads[t].pc == Calm || s.threads[t].pc.Mutating?))
  }

  /** Thread `t` takes its turns until its call is over or the process is, or as many as there are. */
  function Finish(s: State, t: nat, turns: seq<Turn>, from: nat): State
    decreases |turns| - from
  {
    if from >= |turns| || Done(s, t) then s else
    var s1 := OwnStep(s, t, turns[from]);
    if Done(s1, t) then s1 else Finish(Meanwhile(s1, t, turns[from].others), t, turns, from + 1)
  }

  /** The call has begun: its handle is borrowed. */
  function Begun(s: State, t: nat, a: Action, first: Gap): State {
    Meanwhile(Step(s, t, a), t, first)
  }

  class Counter {
    const n: nat
    var msgs: seq<Msg>
    var events: nat
    var writes: set<nat>
    var freed: nat
    var bad: bool
    var aborted: bool
    var dropper: Role
    var handles: seq<Handle>
    var threads: seq<Thread>
    ghost var trace: Gap

    function Abs(): State
      reads this
    {
      State(msgs, events, writes, freed, bad, aborted, dropper, handles, threads)
    }

    ghost predicate Valid()
      reads this
    {
      n <= MAX / 2 && Abs() == Run(Init(n), trace)
    }

    /** The state after the first `j` steps. */
    ghost function At(j: nat): State
      requires j <= |trace|
      reads this
    {
      Run(Init(n), trace[..j])
    }

    /** What has happened stays so. */
    lemma Past(soFar: Gap, j: nat)
      requires soFar <= trace && j < |soFar|
      ensures At(j) == Run(Init(n), soFar[..j]) && trace[j] == soFar[j]
    {
      assert trace[..j] == soFar[..j];
    }

    /** Step `j` is the decrement of thread `t` through `h`, and it takes the count to 0 if and only if `last`. */
    ghost predicate CountedDown(j: nat, t: nat, h: nat, last: bool)
      reads this
    {
      && j < |trace| && trace[j].0 == t
      && t < |At(j).threads| && At(j).threads[t].pc == Dropping(h)
      && At(j).msgs != [] && (last <==> Last(At(j)).value == 1)
    }

    /** `Arc::new`. */
    constructor (n: nat)
      requires n <= MAX / 2
      ensures Valid() && this.n == n && Abs() == Init(n)
    {
      this.n := n;
      var s := Init(n);
      msgs, events, writes, freed, bad, aborted := s.msgs, s.events, s.writes, s.freed, s.bad, s.aborted;
      dropper, handles, threads, trace := s.dropper, s.handles, s.threads, [];
    }

    lemma Known()
      requires Valid()
      ensures Inv(Abs()) && msgs != []
    {
      InitInv(n);
      RunInv(Init(n), trace);
    }

    ghost method Record(before: State, t: nat, a: Action)
      requires n <= MAX / 2 && before == Run(Init(n), trace) && Abs() == Step(before, t, a)
      modifies this`trace
      ensures Valid() && trace == old(trace) + [(t, a)] && At(|trace| - 1) == before
    {
      RunSnoc(Init(n), trace, t, a);
      assert (trace + [(t, a)])[..|trace|] == trace;
      trace := trace + [(t, a)];
    }

    /** One step as the state machine takes it. */
    method Take(t: nat, a: Action)
      requires Valid()
      modifies this
      ensures Valid() && trace == old(trace) + [(t, a)] && Abs() == Step(old(Abs()), t, a)
    {
      ghost var before := Abs();
      var s := Step(Abs(), t, a);
      msgs, events, writes, freed, bad, aborted := s.msgs, s.events, s.writes, s.freed, s.bad, s.aborted;
      dropper, handles, threads := s.dropper, s.handles, s.threads;
      Record(before, t, a);
    }

    method Others(t: nat, gap: Gap)
      requires Valid() && t < |threads|
      modifies this
      ensures Valid() && old(trace) <= trace && |threads| == old(|threads|) && threads[t] == old(threads[t])
      ensures forall h: nat | h < old(|handles|) && old(handles)[h].status == Gone ::
                h < |handles| && handles[h].status == Gone
      ensures forall h: nat | old(Assured(Abs(), t, h)) :: Assured(Abs(), t, h)
      ensures Abs() == Meanwhile(old(Abs()), t, gap)
    {
      for i := 0 to |gap|
        invariant Valid() && old(trace) <= trace && |threads| == old(|threads|) && threads[t] == old(threads[t])
        invariant forall h: nat | h < old(|handles|) && old(handles)[h].status == Gone ::
                    h < |handles| && handles[h].status == Gone
        invariant forall h: nat | old(Assured(Abs(), t, h)) :: Assured(Abs(), t, h)
        invariant Meanwhile(Abs(), t, gap[i..]) == Meanwhile(old(Abs()), t, gap)
      {
        assert gap[i..][1..] == gap[i + 1..];
        if gap[i].0 != t {
          OthersLeaveMe(Abs(), gap[i].0, gap[i].1, t);
          forall h: nat | h < |handles|
            ensures h < |Step(Abs(), gap[i].0, gap[i].1).handles|
            ensures handles[h].status == Gone ==> Step(Abs(), gap[i].0, gap[i].1).handles[h].status == Gone
          {
            HandlesStay(Abs(), gap[i].0, gap[i].1, h);
          }
          forall h: nat | Assured(Abs(), t, h)
            ensures Assured(Step(Abs(), gap[i].0, gap[i].1), t, h)
          {
            StaysAssured(Abs(), t, h, gap[i].0, gap[i].1);
          }
          Take(gap[i].0, gap[i].1);
        }
      }
    }

    /** The own step of turn `g` did not end the call; now the others take theirs. */
    method EndTurn(t: nat, turns: seq<Turn>, g: nat, ghost before: State, ghost goal: State) returns (next: nat)
      requires Valid() && t < |threads| && g < |turns| && !Done(before, t) && !Done(Abs(), t)
      requires Abs() == OwnStep(before, t, turns[g]) && Finish(before, t, turns, g) == goal
      modifies this
      ensures Valid() && old(trace) <= trace && |threads| == old(|threads|) && threads[t] == old(threads[t])
      ensures forall h: nat | h < old(|handles|) && old(handles)[h].status == Gone ::
                h < |handles| && handles[h].status == Gone
      ensures next == g + 1 && Finish(Abs(), t, turns, next) == goal
    {
      Others(t, turns[g].others);
      next := g + 1;
    }

    /** A counted reference of this thread's keeps the block. */
    lemma Held(t: nat, h: nat)
      requires Valid() && t < |threads| && Uses(threads[t], h)
      ensures h < |handles| && handles[h].status == Live && freed == 0
      ensures msgs != [] && Last(Abs()).value > 0
      ensures threads[t].pc.Calm? && h in threads[t].shared ==> Last(Abs()).value < MAX
    {
      Known();
      LiveIsCounted(Abs(), t, h);
      if threads[t].pc.Calm? && h in threads[t].shared { CloneCounts(Abs(), t, h); }
    }

    /** `ref_count.fetch_add(1, Relaxed)`. */
    method FetchAdd(t: nat, h: nat) returns (prev: nat)
      requires Valid() && !aborted && t < |threads| && threads[t].pc == Calm && h in threads[t].shared
      requires msgs != [] && Last(Abs()).value < MAX && freed == 0
      modifies this
      ensures Valid() && old(trace) <= trace && |threads| == old(|threads|) && !aborted && freed == 0
      ensures prev == Last(old(Abs())).value && msgs != [] && Last(Abs()).value == prev + 1
      ensures |handles| == old(|handles|) + 1 && handles[..|old(handles)|] == old(handles)
      ensures threads[t].pc == if prev > MAX / 2 then Aborting else Calm
      ensures handles[|handles| - 1].status == if prev > MAX / 2 then Doomed else Live
      ensures Abs() == Step(old(Abs()), t, Action.Clone(h))
    {
      ghost var before := Abs();
      var m := msgs[|msgs| - 1];
      prev := m.value;
      var clock := Clock(threads[t].clock.events + {events}, |msgs|);
      threads := threads[t := threads[t].(clock := clock, pending := Join(threads[t].pending, m.clock),
                                          pc := if prev > MAX / 2 then Aborting else Calm)];
      handles := handles + [Handle(if prev > MAX / 2 then Doomed else Live, clock, NEVER, |msgs|)];
      msgs := msgs + [Msg(prev + 1, m.clock)];
      events := events + 1;
      assert Abs() == CloneStep(before, t, h);
      Record(before, t, Action.Clone(h));
    }

    /** `Arc::clone` through a borrowed handle: a new handle, or the process aborts. */
    method CloneArc(t: nat, h: nat) returns (r: Answer)
      requires Valid() && !aborted && t < |threads| && threads[t].pc == Calm && h in threads[t].shared
      modifies this
      ensures Valid() && old(trace) <= trace && |threads| == old(|threads|)
      ensures r.Some? ==> r.i < |handles| && handles[r.i].status == Live && freed == 0 && threads[t].pc == Calm
      ensures r.Some? ==> r.i == |old(handles)| && |handles| == r.i + 1 && handles[..r.i] == old(handles)
      ensures r.Some? ==> old(msgs) != [] && msgs != [] && Last(Abs()).value == Last(old(Abs())).value + 1
      ensures !r.Some? ==> aborted
      ensures var s := Step(old(Abs()), t, Action.Clone(h)); Abs() == if r.Some? then s else s.(aborted := true)
    {
      Held(t, h);
      var prev := FetchAdd(t, h);
      if prev > MAX / 2 {
        Take(t, Continue(0));
        return Unfinished;
      }
      r := Some(|handles| - 1);
    }

    /** `fence(Acquire)`. */
    method Fence(t: nat, pc: Pc)
      requires Valid() && !aborted && t < |threads|
      requires (threads[t].pc == DropFence && pc == Freeing)
               || (threads[t].pc.GmFence? && pc == Mutating(threads[t].pc.h))
      modifies this
      ensures Valid() && old(trace) <= trace && |threads| == old(|threads|) && !aborted && threads[t].pc == pc
      ensures handles == old(handles) && forall turn: Turn :: Abs() == OwnStep(old(Abs()), t, turn)
    {
      ghost var before := Abs();
      Known();
      threads := threads[t := threads[t].(pc := pc, clock := Join(threads[t].clock, threads[t].pending))];
      Record(before, t, Continue(0));
    }

    /** `drop(Box::from_raw(..))`. */
    method Free(t: nat)
      requires Valid() && !aborted && t < |threads| && threads[t].pc == Freeing
      modifies this
      ensures Valid() && old(trace) <= trace && |threads| == old(|threads|) && !aborted && !bad
      ensures threads[t].pc == Calm && freed == 1 && Complete(events, threads[t].clock) && handles == old(handles)
      ensures forall turn: Turn :: Abs() == OwnStep(old(Abs()), t, turn)
    {
      ghost var before := Abs();
      Known();
      AllKnown(before, t);
      assert ThreadOk(before, t);
      freed := freed + 1;
      dropper := Nobody;
      threads := threads[t := threads[t].(pc := Calm)];
      Record(before, t, Continue(0));
    }

    /** The end of the block. */
    method FreeTurn(t: nat, h: nat, turns: seq<Turn>, g: nat, ghost goal: State)
      requires Valid() && t < |threads| && threads[t].pc == Freeing
      requires h < |handles| && handles[h].status == Gone && g < |turns| && Finish(Abs(), t, turns, g) == goal
      modifies this
      ensures Valid() && old(trace) <= trace && |threads| == old(|threads|) && Abs() == goal
      ensures !aborted ==> threads[t].pc == Calm && h < |handles| && handles[h].status == Gone
      ensures !aborted ==> freed == 1 && Complete(events, threads[t].clock)
    {
      if !aborted {
        Free(t);
      }
    }

    /** What the last handle owes. */
    method FreeBlock(t: nat, h: nat, turns: seq<Turn>, g: nat, ghost goal: State)
      requires Valid() && t < |threads| && threads[t].pc == DropFence
      requires h < |handles| && handles[h].status == Gone && g + 2 <= |turns| && Finish(Abs(), t, turns, g) == goal
      modifies this
      ensures Valid() && old(trace) <= trace && |threads| == old(|threads|) && Abs() == goal
      ensures !aborted ==> threads[t].pc == Calm && h < |handles| && handles[h].status == Gone
      ensures !aborted ==> freed == 1 && Complete(events, threads[t].clock)
    {
      if aborted {
        return;
      }
      Fence(t, Freeing);
      var next := EndTurn(t, turns, g, old(Abs()), goal);
      FreeTurn(t, h, turns, next, goal);
    }

    /** `ref_count.fetch_sub(1, Release)`. */
    method FetchSub(t: nat, h: nat) returns (last: bool)
      requires Valid() && !aborted && t < |threads| && threads[t].pc == Dropping(h)
      modifies this
      ensures Valid() && old(trace) <= trace && |trace| == |old(trace)| + 1 && |threads| == old(|threads|) && !aborted
      ensures threads[t].pc == (if last then DropFence else Calm) && h < |handles| && handles[h].status == Gone
      ensures msgs != [] && last == (Last(Abs()).value == 0) && CountedDown(|trace| - 1, t, h, last)
      ensures forall turn: Turn :: Abs() == OwnStep(old(Abs()), t, turn)
    {
      ghost var before := Abs();
      Held(t, h);
      var m := msgs[|msgs| - 1];
      last := m.value == 1;
      var clock := Clock(threads[t].clock.events + {events}, |msgs|);
      threads := threads[t := threads[t].(clock := clock, pending := Join(threads[t].pending, m.clock),
                                          pc := if last then DropFence else Calm)];
      handles := handles[h := handles[h].(status := Gone)];
      msgs := msgs + [Msg(m.value - 1, Join(m.clock, clock))];
      events := events + 1;
      dropper := if last then By(t) else dropper;
      Record(before, t, Continue(0));
    }

    /** The decrement, and what the others do if the block is to be freed. */
    method FetchSubTurn(t: nat, h: nat, turns: seq<Turn>, g: nat, ghost goal: State) returns (last: bool, next: nat)
      requires Valid() && !aborted && t < |threads| && threads[t].pc == Dropping(h)
      requires g < |turns| && Finish(Abs(), t, turns, g) == goal
      modifies this
      ensures Valid() && old(trace) <= trace && |threads| == old(|threads|)
      ensures h < |handles| && handles[h].status == Gone
      ensures next == g + 1 && CountedDown(old(|trace|), t, h, last)
      ensures if last then threads[t].pc == DropFence && Finish(Abs(), t, turns, next) == goal
              else threads[t].pc == Calm && !aborted && Abs() == goal
    {
      last := FetchSub(t, h);
      next := g + 1;
      if last {
        ghost var soFar := trace;
        next := EndTurn(t, turns, g, old(Abs()), goal);
        Past(soFar, old(|trace|));
      }
    }

    /** The body of `Arc::drop`. */
    method GiveUp(t: nat, h: nat, turns: seq<Turn>, g: nat, ghost goal: State) returns (last: bool)
      requires Valid() && !aborted && t < |threads| && threads[t].pc == Dropping(h)
      requires g + 3 <= |turns| && Finish(Abs(), t, turns, g) == goal
      modifies this
      ensures Valid() && old(trace) <= trace && |threads| == old(|threads|) && Abs() == goal
      ensures !aborted ==> threads[t].pc == Calm && h < |handles| && handles[h].status == Gone
      ensures !aborted && last ==> freed == 1 && Complete(events, threads[t].clock)
      ensures CountedDown(old(|trace|), t, h, last)
    {
      var next;
      last, next := FetchSubTurn(t, h, turns, g, goal);
      if last {
        ghost var soFar := trace;
        FreeBlock(t, h, turns, next, goal);
        Past(soFar, old(|trace|));
      }
    }

    /** `Arc::drop`: the last one frees the block, and every access happens before that. */
    method DropArc(t: nat, h: nat, first: Gap, second: Gap, third: Gap) returns (last: bool)
      requires Valid() && !aborted && t < |threads| && threads[t].pc == Calm && CanOwn(Abs(), h)
      modifies this
      ensures Valid() && old(trace) <= trace && |threads| == old(|threads|)
      ensures !aborted ==> threads[t].pc == Calm && h < |handles| && handles[h].status == Gone
      ensures !aborted && last ==> freed == 1 && Complete(events, threads[t].clock)
      ensures !aborted ==> exists j: nat :: old(|trace|) <= j && CountedDown(j, t, h, last)
      ensures Abs() == Finish(old(Begun(Abs(), t, BeginDrop(h), first)), t, [Turn(0, second), Turn(0, third), QUIET], 0)
    {
      last := false;
      Known();
      Take(t, BeginDrop(h));
      Others(t, first);
      if !aborted {
        var turns := [Turn(0, second), Turn(0, third), QUIET];
        last := GiveUp(t, h, turns, 0, Finish(Abs(), t, turns, 0));
      }
    }

    /** `ref_count.load(Relaxed) == 1`, on message `i` or, if the thread knows better, on the newest. */
    method LoadCount(t: nat, h: nat, i: nat) returns (one: bool)
      requires Valid() && !aborted && t < |threads| && threads[t].pc == GmLoad(h)
      modifies this
      ensures Valid() && old(trace) <= trace && |threads| == old(|threads|) && !aborted
      ensures threads[t].pc == if one then GmFence(h) else Calm
      ensures one ==> OnlyLive(Abs(), h)
      ensures old(Assured(Abs(), t, h)) ==> one
      ensures forall others: Gap :: Abs() == OwnStep(old(Abs()), t, Turn(i, others))
    {
      Known();
      assert ThreadOk(Abs(), t);
      var from := Readable(Abs(), t, i);
      one := msgs[from].value == 1;
      GetMutDecides(n, trace, t, from);
      Take(t, Continue(from));
    }

    /** get_mut takes the handle exclusively. */
    method Ask(t: nat, h: nat)
      requires Valid() && !aborted && t < |threads| && threads[t].pc == Calm && CanOwn(Abs(), h)
      modifies this
      ensures Valid() && old(trace) <= trace && |threads| == old(|threads|) && !aborted && threads[t].pc == GmLoad(h)
      ensures old(OnlyLive(Abs(), h) && UpToDate(Abs(), t, h)) ==> Assured(Abs(), t, h)
      ensures Abs() == Step(old(Abs()), t, BeginGetMut(h))
    {
      Known();
      StepInv(Abs(), t, BeginGetMut(h));
      Take(t, BeginGetMut(h));
    }

    /** The part of get_mut behind a load that saw 1. */
    method GetMutFinish(t: nat, h: nat, turns: seq<Turn>, g: nat, ghost goal: State) returns (r: Answer)
      requires Valid() && t < |threads| && threads[t].pc == GmFence(h)
      requires g < |turns| && Finish(Abs(), t, turns, g) == goal
      modifies this
      ensures Valid() && old(trace) <= trace && |threads| == old(|threads|) && Abs() == goal
      ensures if aborted then r.Unfinished? else r == Some(h)
      ensures r.Some? ==> threads[t].pc == Mutating(h) && OnlyLive(Abs(), h) && Complete(events, threads[t].clock)
    {
      if aborted {
        return Unfinished;
      }
      Fence(t, Mutating(h));
      GetMutIsAlone(n, trace, t);
      r := Some(h);
    }

    /**
     `Arc::get_mut`, whose load may be stale: Some means that the caller is alone and has seen every access,
     None that it was not both alone and up to date when it called.
     */
    method GetMut(t: nat, h: nat, i: nat, first: Gap, second: Gap) returns (r: Answer)
      requires Valid() && !aborted && t < |threads| && threads[t].pc == Calm && CanOwn(Abs(), h)
      modifies this
      ensures Valid() && old(trace) <= trace && |threads| == old(|threads|)
      ensures r.Some? ==> r.i == h && threads[t].pc == Mutating(h)
      ensures r.Some? ==> OnlyLive(Abs(), h) && Complete(events, threads[t].clock)
      ensures r.None? ==> threads[t].pc == Calm && !old(OnlyLive(Abs(), h) && UpToDate(Abs(), t, h))
      ensures r.Unfinished? ==> aborted
      ensures Abs() == Finish(old(Begun(Abs(), t, BeginGetMut(h), first)), t, [Turn(i, second), QUIET], 0)
    {
      Ask(t, h);
      Others(t, first);
      if aborted {
        return Unfinished;
      }
      var turns := [Turn(i, second), QUIET];
      ghost var before, goal := Abs(), Finish(Abs(), t, turns, 0);
      var one := LoadCount(t, h, i);
      if one {
        var g := EndTurn(t, turns, 0, before, goal);
        r := GetMutFinish(t, h, turns, g, goal);
      } else {
        r := None;
      }
    }
  }
}
