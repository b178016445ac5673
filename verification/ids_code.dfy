/**
 The two allocators as code that updates the shared counter in place, with the steps of other threads
 between the atomic operations of a call. The call with a loop comes in turns: its own step, and what the
 others do before its next one. `Valid` says that the object went through a run of the state machine.
 */
module IdsCode {
  import opened Sums
  import opened Ids
  import Cas = CasIds
  import Undo = UndoIds

  /** What a call returns, panics with, or is still doing when its turns are used up. */
  datatype Answer = Issued(id: nat) | TooMany | Unfinished

  lemma {:induction false} CasSnoc(s: Cas.State, tr: seq<(nat, Cas.Choice)>, t: nat, c: Cas.Choice)
    ensures Cas.Run(s, tr + [(t, c)]) == Cas.Step(Cas.Run(s, tr), t, c)
    decreases |tr|
  {
    if tr == [] {
      assert (tr + [(t, c)])[1..] == [];
    } else {
      assert (tr + [(t, c)])[1..] == tr[1..] + [(t, c)];
      CasSnoc(Cas.Step(s, tr[0].0, tr[0].1), tr[1..], t, c);
    }
  }

  // ----- What a call with a loop does in its turns -----

  type CasGap = seq<(nat, Cas.Choice)>

  /** What thread `t` leaves to chance in its own step, and what the others do before its next one. */
  datatype Turn = Turn(own: Cas.Choice, others: CasGap)

  /** The others' steps of a gap; its entries of thread `t` itself are left out. */
  function Meanwhile(s: Cas.State, t: nat, gap: CasGap): Cas.State
    decreases |gap|
  {
    if gap == [] then s else Meanwhile(if gap[0].0 == t then s else Cas.Step(s, gap[0].0, gap[0].1), t, gap[1..])
  }

  predicate Over(s: Cas.State, t: nat) {
    t < |s.threads| && (s.threads[t] == Cas.Idle || s.threads[t] == Cas.Panicked)
  }

  /** Thread `t` takes its turns until its call is over, or as many as there are. */
  function Finish(s: Cas.State, t: nat, turns: seq<Turn>, from: nat): Cas.State
    decreases |turns| - from
  {
    if from >= |turns| || Over(s, t) then s else
    var s1 := Cas.Step(s, t, turns[from].own);
    if Over(s1, t) then s1 else Finish(Meanwhile(s1, t, turns[from].others), t, turns, from + 1)
  }

  /** The call has begun: thread `t` is about to load the counter. */
  function Begun(s: Cas.State, t: nat, first: CasGap): Cas.State {
    Meanwhile(Cas.Step(s, t, Cas.Choice(0, false)), t, first)
  }

  /** The own step ends the call: it reads the limit, or an exchange that does not fail spuriously finds its value. */
  predicate Ends(s: Cas.State, t: nat, c: Cas.Choice) {
    && t < |s.threads|
    && (|| ((s.threads[t].Load? || s.threads[t].Try?) && Cas.Loaded(s, c) >= Cas.LIMIT)
        || (s.threads[t].Try? && s.next == s.threads[t].id && !c.spurious))
  }

  lemma StepEnds(s: Cas.State, t: nat, c: Cas.Choice)
    requires t < |s.threads| && !Over(s, t)
    ensures Over(Cas.Step(s, t, c), t) <==> Ends(s, t, c)
    ensures |Cas.Step(s, t, c).threads| == |s.threads|
  {
  }

  lemma {:induction false} MeanwhileStays(s: Cas.State, t: nat, gap: CasGap)
    requires t < |s.threads|
    ensures var s' := Meanwhile(s, t, gap); t < |s'.threads| && s'.threads[t] == s.threads[t]
    decreases |gap|
  {
    if gap == [] {
    } else {
      MeanwhileStays(if gap[0].0 == t then s else Cas.Step(s, gap[0].0, gap[0].1), t, gap[1..]);
    }
  }

  /** Turn `i` of the call, if it comes to that, ends it. */
  ghost predicate EndsAt(s: Cas.State, t: nat, turns: seq<Turn>, from: nat, i: nat) {
    from <= i < |turns| && Ends(Finish(s, t, turns[..i], from), t, turns[i].own)
  }

  /** A turn that does not end the call only moves its start. */
  lemma EndsLater(s: Cas.State, t: nat, turns: seq<Turn>, from: nat, i: nat)
    requires from < |turns| && !Over(s, t) && !Over(Cas.Step(s, t, turns[from].own), t) && i != from
    ensures var s2 := Meanwhile(Cas.Step(s, t, turns[from].own), t, turns[from].others);
      EndsAt(s, t, turns, from, i) <==> EndsAt(s2, t, turns, from + 1, i)
  {
    if from < i < |turns| { assert turns[..i][from] == turns[from]; }
  }

  lemma EndsSometime(s: Cas.State, t: nat, turns: seq<Turn>, from: nat, next: nat)
    requires from < |turns| && next == from + 1 && !Over(s, t) && !Over(Cas.Step(s, t, turns[from].own), t)
    requires !Ends(s, t, turns[from].own)
    ensures var s2 := Meanwhile(Cas.Step(s, t, turns[from].own), t, turns[from].others);
      (exists i: nat :: EndsAt(s, t, turns, from, i)) <==> (exists i: nat :: EndsAt(s2, t, turns, next, i))
  {
    var s2 := Meanwhile(Cas.Step(s, t, turns[from].own), t, turns[from].others);
    assert !EndsAt(s, t, turns, from, from);
    if i: nat :| EndsAt(s, t, turns, from, i) {
      EndsLater(s, t, turns, from, i);
    }
    if i: nat :| EndsAt(s2, t, turns, next, i) {
      EndsLater(s, t, turns, from, i);
    }
  }

  /** The call is over within its turns if and only if one of its own steps ends it. */
  lemma {:induction false} OverWhenEnded(s: Cas.State, t: nat, turns: seq<Turn>, from: nat)
    requires t < |s.threads| && !Over(s, t)
    ensures Over(Finish(s, t, turns, from), t) <==> exists i: nat :: EndsAt(s, t, turns, from, i)
    decreases |turns| - from
  {
    if from >= |turns| {
    } else {
      StepEnds(s, t, turns[from].own);
      var s1 := Cas.Step(s, t, turns[from].own);
      if Over(s1, t) {
        assert EndsAt(s, t, turns, from, from);
      } else {
        MeanwhileStays(s1, t, turns[from].others);
        OverWhenEnded(Meanwhile(s1, t, turns[from].others), t, turns, from + 1);
        EndsSometime(s, t, turns, from, from + 1);
      }
    }
  }

  class CasAllocator {
    const n: nat
    var next: nat
    var issued: seq<nat>
    var threads: seq<Cas.Pc>
    ghost var trace: seq<(nat, Cas.Choice)>

    function Abs(): Cas.State
      reads this
    {
      Cas.State(next, issued, threads)
    }

    ghost predicate Valid()
      reads this
    {
      Abs() == Cas.Run(Cas.Init(n), trace)
    }

    constructor (n: nat)
      ensures Valid() && this.n == n && Abs() == Cas.Init(n)
    {
      this.n, next, issued, threads, trace := n, 0, [], Cas.Init(n).threads, [];
    }

    lemma Known()
      requires Valid()
      ensures Cas.Inv(Abs())
    {
      Cas.RunInv(Cas.Init(n), trace);
    }

    ghost method Record(before: Cas.State, t: nat, c: Cas.Choice)
      requires before == Cas.Run(Cas.Init(n), trace) && Abs() == Cas.Step(before, t, c)
      modifies this`trace
      ensures Valid() && trace == old(trace) + [(t, c)]
    {
      CasSnoc(Cas.Init(n), trace, t, c);
      trace := trace + [(t, c)];
    }

    method Others(t: nat, gap: CasGap)
      requires Valid() && t < |threads|
      modifies this
      ensures Valid() && old(trace) <= trace && old(issued) <= issued
      ensures |threads| == old(|threads|) && threads[t] == old(threads[t])
      ensures Abs() == Meanwhile(old(Abs()), t, gap)
    {
      for i := 0 to |gap|
        invariant Valid() && old(trace) <= trace && old(issued) <= issued
        invariant |threads| == old(|threads|) && threads[t] == old(threads[t])
        invariant Meanwhile(Abs(), t, gap[i..]) == Meanwhile(old(Abs()), t, gap)
      {
        assert gap[i..][1..] == gap[i + 1..];
        if gap[i].0 != t {
          ghost var before := Abs();
          var s := Cas.Step(Abs(), gap[i].0, gap[i].1);
          next, issued, threads := s.next, s.issued, s.threads;
          Record(before, gap[i].0, gap[i].1);
        }
      }
    }

    /** The own step of turn `g` did not end the call; now the others take theirs. */
    method EndTurn(t: nat, turns: seq<Turn>, g: nat, ghost before: Cas.State, ghost goal: Cas.State)
        returns (after: nat)
      requires Valid() && t < |threads| && g < |turns| && !Over(before, t) && !Over(Abs(), t)
      requires Abs() == Cas.Step(before, t, turns[g].own) && Finish(before, t, turns, g) == goal
      modifies this
      ensures Valid() && old(trace) <= trace && old(issued) <= issued
      ensures |threads| == old(|threads|) && threads[t] == old(threads[t])
      ensures after == g + 1 && Finish(Abs(), t, turns, after) == goal
    {
      Others(t, turns[g].others);
      after := g + 1;
    }

    /** `NEXT_ID.load(Relaxed)`. */
    method LoadId(t: nat, c: Cas.Choice) returns (id: nat)
      requires Valid() && t < |threads| && threads[t] == Cas.Load
      modifies this
      ensures Valid() && old(trace) <= trace && |threads| == old(|threads|) && issued == old(issued)
      ensures threads[t] == Cas.Decide(id) && Abs() == Cas.Step(old(Abs()), t, c)
    {
      ghost var before := Abs();
      id := Cas.Loaded(Abs(), c);
      threads := threads[t := Cas.Decide(id)];
      Record(before, t, c);
    }

    /** `compare_exchange_weak(id, id + 1)`. */
    method Exchange(t: nat, id: nat, c: Cas.Choice) returns (ok: bool, seen: nat)
      requires Valid() && t < |threads| && threads[t] == Cas.Try(id)
      modifies this
      ensures Valid() && old(trace) <= trace && |threads| == old(|threads|)
      ensures ok ==> threads[t] == Cas.Idle && issued == old(issued) + [id] && id == old(|issued|) && id < Cas.LIMIT
      ensures !ok ==> threads[t] == Cas.Decide(seen) && issued == old(issued)
      ensures Abs() == Cas.Step(old(Abs()), t, c)
    {
      ghost var before := Abs();
      Known();
      ok := next == id && !c.spurious;
      seen := Cas.Loaded(Abs(), c);
      if ok {
        next := id + 1;
        issued := issued + [id];
        threads := threads[t := Cas.Idle];
      } else {
        threads := threads[t := Cas.Decide(seen)];
      }
      Record(before, t, c);
    }

    lemma PanicMeansFull(t: nat)
      requires Valid() && t < |threads| && threads[t] == Cas.Panicked
      ensures issued == First(Cas.LIMIT)
    {
      Known();
    }

    /** The loop of the compare-exchange. */
    method ExchangeLoop(t: nat, turns: seq<Turn>, from: nat, first: nat, ghost goal: Cas.State) returns (r: Answer)
      requires Valid() && t < |threads| && threads[t] == Cas.Try(first) && first < Cas.LIMIT
      requires from <= |turns| && Finish(Abs(), t, turns, from) == goal
      modifies this
      ensures Valid() && old(trace) <= trace && old(issued) <= issued && |threads| == old(|threads|) && Abs() == goal
      ensures r.Issued? ==> r.id < Cas.LIMIT && threads[t] == Cas.Idle
      ensures r.Issued? ==> old(|issued|) <= r.id < |issued| && issued[r.id] == r.id
      ensures r.TooMany? ==> threads[t] == Cas.Panicked
      ensures r.Unfinished? <==> !Over(Abs(), t)
    {
      var g := from;
      var id: nat := first;
      while g < |turns|
        invariant Valid() && old(trace) <= trace && old(issued) <= issued && |threads| == old(|threads|)
        invariant g <= |turns| && threads[t] == Cas.Try(id) && Finish(Abs(), t, turns, g) == goal
      {
        ghost var before := Abs();
        var ok, seen := Exchange(t, id, turns[g].own);
        if ok {
          return Issued(id);
        }
        if seen >= Cas.LIMIT {
          return TooMany;
        }
        g := EndTurn(t, turns, g, before, goal);
        id := seen;
      }
      r := Unfinished;
    }

    /** The call begins; what decides whether it is over within its turns. */
    method Begin(t: nat, first: CasGap, ghost turns: seq<Turn>)
      requires Valid() && t < |threads| && threads[t] == Cas.Idle
      modifies this
      ensures Valid() && old(trace) <= trace && old(issued) <= issued && |threads| == old(|threads|)
      ensures threads[t] == Cas.Load && Abs() == old(Begun(Abs(), t, first))
      ensures Over(Finish(Abs(), t, turns, 0), t) <==> exists i: nat :: EndsAt(Abs(), t, turns, 0, i)
    {
      ghost var before := Abs();
      threads := threads[t := Cas.Load];
      Record(before, t, Cas.Choice(0, false));
      Others(t, first);
      OverWhenEnded(Abs(), t, turns, 0);
    }

    /**
     An identifier that is below the limit and that no call has returned before, or a panic once all of
     them are taken.
     */
    method AllocateNewId(t: nat, first: CasGap, turns: seq<Turn>) returns (r: Answer)
      requires Valid() && t < |threads| && threads[t] == Cas.Idle
      modifies this
      ensures Valid() && old(trace) <= trace && old(issued) <= issued && |threads| == old(|threads|)
      ensures r.Issued? ==> r.id < Cas.LIMIT && threads[t] == Cas.Idle
      ensures r.Issued? ==> old(|issued|) <= r.id < |issued| && issued[r.id] == r.id
      ensures r.TooMany? ==> issued == First(Cas.LIMIT)
      ensures Abs() == Finish(old(Begun(Abs(), t, first)), t, turns, 0)
      ensures !r.Unfinished? <==> exists i: nat :: EndsAt(old(Begun(Abs(), t, first)), t, turns, 0, i)
    {
      Begin(t, first, turns);
      ghost var goal := Finish(Abs(), t, turns, 0);
      if turns == [] {
        return Unfinished;
      }
      ghost var before := Abs();
      var id := LoadId(t, turns[0].own);
      if id >= Cas.LIMIT {
        r := TooMany;
      } else {
        var g := EndTurn(t, turns, 0, before, goal);
        r := ExchangeLoop(t, turns, g, id, goal);
      }
      if r.TooMany? { PanicMeansFull(t); }
    }
  }

  /** The others' steps of a gap of the second allocator. */
  function UndoMeanwhile(s: Undo.State, t: nat, gap: seq<nat>): Undo.State
    decreases |gap|
  {
    if gap == [] then s else UndoMeanwhile(if gap[0] == t then s else Undo.Step(s, gap[0]), t, gap[1..])
  }

  class UndoAllocator {
    const n: nat
    var next: nat
    var issued: seq<nat>
    var threads: seq<Undo.Pc>
    ghost var trace: seq<nat>

    function Abs(): Undo.State
      reads this
    {
      Undo.State(next, issued, threads)
    }

    ghost predicate Valid()
      reads this
    {
      Abs() == Undo.Run(Undo.Init(n), trace)
    }

    constructor (n: nat)
      ensures Valid() && this.n == n && Abs() == Undo.Init(n)
    {
      this.n, next, issued, threads, trace := n, 0, [], Undo.Init(n).threads, [];
    }

    ghost predicate Few()
      reads this
    {
      n <= Undo.WORD - Undo.LIMIT
    }

    lemma Known()
      requires Valid() && Few()
      ensures Undo.Inv(Abs())
    {
      Undo.InitInv(n);
      Undo.RunInv(Undo.Init(n), trace);
    }

    ghost method Record(before: Undo.State, t: nat)
      requires before == Undo.Run(Undo.Init(n), trace) && Abs() == Undo.Step(before, t)
      modifies this`trace
      ensures Valid() && trace == old(trace) + [t]
    {
      Undo.Concat(Undo.Init(n), trace, [t]);
      trace := trace + [t];
    }

    method Others(t: nat, gap: seq<nat>)
      requires Valid() && t < |threads|
      modifies this
      ensures Valid() && old(trace) <= trace && old(issued) <= issued
      ensures |threads| == old(|threads|) && threads[t] == old(threads[t])
      ensures Abs() == UndoMeanwhile(old(Abs()), t, gap)
    {
      for i := 0 to |gap|
        invariant Valid() && old(trace) <= trace && old(issued) <= issued
        invariant |threads| == old(|threads|) && threads[t] == old(threads[t])
        invariant UndoMeanwhile(Abs(), t, gap[i..]) == UndoMeanwhile(old(Abs()), t, gap)
      {
        assert gap[i..][1..] == gap[i + 1..];
        if gap[i] != t {
          ghost var before := Abs();
          var s := Undo.Step(Abs(), gap[i]);
          next, issued, threads := s.next, s.issued, s.threads;
          Record(before, gap[i]);
        }
      }
    }

    lemma OverMeansFull(t: nat)
      requires Valid() && Few() && t < |threads|
      ensures GapFree(issued) && (threads[t] == Undo.Over ==> issued == First(Undo.LIMIT))
    {
      Known();
      SumAtLeast(threads, t, Undo.IsOver);
    }

    method FetchAdd(t: nat) returns (id: nat)
      requires Valid() && t < |threads| && threads[t] == Undo.Idle
      modifies this
      ensures Valid() && old(trace) <= trace && |threads| == old(|threads|)
      ensures id == old(next) && threads[t] == if Undo.LIMIT <= id then Undo.Over else Undo.Idle
      ensures issued == if Undo.LIMIT <= id then old(issued) else old(issued) + [id]
      ensures Abs() == Undo.Step(old(Abs()), t)
      ensures Few() ==> if Undo.LIMIT <= id then issued == First(Undo.LIMIT) else id == old(|issued|)
    {
      ghost var before := Abs();
      id := next;
      next := (id + 1) % Undo.WORD;
      if Undo.LIMIT <= id {
        threads := threads[t := Undo.Over];
      } else {
        issued := issued + [id];
      }
      Record(before, t);
      if Few() {
        OverMeansFull(t);
        assert id < Undo.LIMIT ==> issued[|issued| - 1] == id;
      }
    }

    method FetchSub(t: nat)
      requires Valid() && t < |threads| && threads[t] == Undo.Over
      modifies this
      ensures Valid() && old(trace) <= trace && |threads| == old(|threads|)
      ensures threads[t] == Undo.Idle && issued == old(issued) && Abs() == Undo.Step(old(Abs()), t)
    {
      ghost var before := Abs();
      next := (next + Undo.WORD - 1) % Undo.WORD;
      threads := threads[t := Undo.Idle];
      Record(before, t);
    }

    /** With few enough threads the identifiers are issued in order, and a call panics only after the last. */
    method AllocateNewId(t: nat, gap: seq<nat>) returns (r: Answer)
      requires Valid() && t < |threads| && threads[t] == Undo.Idle
      modifies this
      ensures Valid() && old(trace) <= trace && |threads| == old(|threads|) && threads[t] == Undo.Idle
      ensures r == if old(next) < Undo.LIMIT then Issued(old(next)) else TooMany
      ensures Abs() == if r.Issued? then Undo.Step(old(Abs()), t)
                       else Undo.Step(UndoMeanwhile(Undo.Step(old(Abs()), t), t, gap), t)
      ensures r.Issued? ==> r.id < Undo.LIMIT && issued == old(issued) + [r.id]
      ensures r.Issued? && Few() ==> r.id == old(|issued|)
      ensures r.TooMany? ==> old(issued) <= issued
      ensures r.TooMany? && Few() ==> old(issued) == First(Undo.LIMIT) == issued
    {
      var id := FetchAdd(t);
      if Undo.LIMIT <= id {
        Others(t, gap);
        FetchSub(t);
        if Few() { Known(); }
        r := TooMany;
      } else {
        r := Issued(id);
      }
    }
  }
}
