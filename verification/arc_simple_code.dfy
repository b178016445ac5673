/**
 The simple `Arc` as code that updates the two counters in place, with the other threads' steps between its
 atomic operations, call by call in turns, as for the optimised one.
 */
module ArcSimpleCode {
  import opened Basics
  import opened Sums
  import opened Usize
  import opened Borrowing
  import opened ArcSimple

  type Gap = seq<(nat, Choice)>

  const CALM := Choice(Deref, 0, false)

  /** A turn in which nothing fails and nobody else moves. */
  const QUIET := Turn(false, [])

  datatype Answer = Some(i: nat) | None | Unfinished

  lemma {:induction false} RunEndsBounded(s: State, tr: Gap)
    requires AlwaysBounded(s, tr)
    ensures Bounded(Run(s, tr))
    decreases |tr|
  {
    if tr == [] {
    } else {
      RunEndsBounded(Step(s, tr[0].0, tr[0].1), tr[1..]);
    }
  }

  lemma RunSnoc(s: State, tr: Gap, t: nat, c: Choice)
    requires AlwaysBounded(s, tr) && Bounded(Step(Run(s, tr), t, c))
    ensures Run(s, tr + [(t, c)]) == Step(Run(s, tr), t, c) && AlwaysBounded(s, tr + [(t, c)])
  {
    var s1 := Run(s, tr);
    RunEndsBounded(s, tr);
    assert [(t, c)][1..] == [];
    assert AlwaysBounded(Step(s1, t, c), []);
    assert AlwaysBounded(s1, [(t, c)]);
    Concat(s, tr, [(t, c)]);
  }

  /** So many more references, those that a call is about to create, fit below the bound. */
  predicate Roomy(s: State, arcs: nat, allocs: nat) {
    s.data + arcs < MAX - 1 && s.alloc + allocs < MAX - 1
  }

  /** What the next step adds to the first and to the second counter. */
  function Arcing(pc: Pc): nat {
    if pc.CloneData? || pc.UpCas? then 1 else 0
  }

  function Allocing(pc: Pc): nat {
    if pc.CloneAlloc? || pc.DownAlloc? || pc.WeakCloning? || pc.UpAlloc? then 1 else 0
  }

  lemma GrowsBy(s: State, t: nat, c: Choice)
    requires t < |s.threads| && PcOk(s, t)
    requires s.threads[t].Dropping? ==> s.data > 0
    requires s.threads[t].DropAlloc? || s.threads[t].WeakDropping? ==> s.alloc > 0
    ensures Step(s, t, c).data <= s.data + Arcing(s.threads[t])
    ensures Step(s, t, c).alloc <= s.alloc + Allocing(s.threads[t])
  {
    if !s.aborted {
      match s.threads[t]
      case Idle => assert Step(s, t, c) == Begin(s, t, c.op, c.h);
      case CloneAlloc(h) => assert Step(s, t, c) == WeakCloneStep(s, t, Stray(0, 1, t), CloneData(h, |s.handles|));
      case CloneData(_, i) => assert Step(s, t, c) == CloneDataStep(s, t, i);
      case UpCas(h, n) => assert Step(s, t, c) == UpCasStep(s, t, h, n, c.spurious);
      case UpAlloc(_, i) => assert Step(s, t, c) == UpAllocStep(s, t, i);
      case Dropping(h) => assert Step(s, t, c) == DropStep(s, t, h);
      case DropAlloc(i) => assert Step(s, t, c) == DropAllocStep(s, t, i);
      case WeakDropping(h) => assert Step(s, t, c) == DropAllocStep(s, t, h);
      case _ =>
    }
  }

  lemma StepFits(s: State, t: nat, c: Choice)
    requires Inv(s) && Bounded(s) && t < |s.threads| && Roomy(s, Arcing(s.threads[t]), Allocing(s.threads[t]))
    ensures Inv(Step(s, t, c)) && Bounded(Step(s, t, c))
  {
    StepInv(s, t, c);
    assert PcOk(s, t);
    Safe(s, t);
    var s' := Step(s, t, c);
    if Busy(s.threads[t]) { WorksOn(s, t); }
    GrowsBy(s, t, c);
  }

  lemma DroppedStays(s: State, u: nat, c: Choice)
    ensures Step(s, u, c).dropped >= s.dropped
  {
    if u < |s.threads| && !s.threads[u].Dropping? && !s.threads[u].DropData? {
      QuietStep(s, u, c);
    }
  }

  lemma OtherHandlesStay(s: State, u: nat, c: Choice, h: nat)
    requires h < |s.handles| && u < |s.threads| && PcOk(s, u) && s.handles[h] == Gone
    requires Busy(s.threads[u]) ==> Working(s.threads[u]) != h
    ensures h < |Step(s, u, c).handles| && Step(s, u, c).handles[h] == s.handles[h]
  {
    if !s.aborted {
      match s.threads[u]
      case Idle => assert Step(s, u, c) == Begin(s, u, c.op, c.h);
      case CloneAlloc(h) => assert Step(s, u, c) == WeakCloneStep(s, u, Stray(0, 1, u), CloneData(h, |s.handles|));
      case CloneData(_, i) => assert Step(s, u, c) == CloneDataStep(s, u, i);
      case UpCas(h, n) => assert Step(s, u, c) == UpCasStep(s, u, h, n, c.spurious);
      case UpAlloc(_, i) => assert Step(s, u, c) == UpAllocStep(s, u, i);
      case Dropping(h) => assert Step(s, u, c) == DropStep(s, u, h);
      case DropAlloc(i) => assert Step(s, u, c) == DropAllocStep(s, u, i);
      case WeakDropping(h) => assert Step(s, u, c) == DropAllocStep(s, u, h);
      case _ =>
    }
  }

  /** Nobody brings a handle back: a step changes a handle of its own thread only. */
  lemma GoneStays(s: State, u: nat, c: Choice, h: nat)
    requires Inv(s) && h < |s.handles| && s.handles[h] == Gone
    ensures h < |Step(s, u, c).handles| && Step(s, u, c).handles[h] == Gone
  {
    if u < |s.threads| {
      assert PcOk(s, u);
      if Busy(s.threads[u]) { WorksOn(s, u); }
      OtherHandlesStay(s, u, c, h);
    }
  }

  // ----- What a call does in its turns -----

  /** Whether the own step of the thread fails spuriously, and what the others do before its next one. */
  datatype Turn = Turn(spurious: bool, others: Gap)

  /** The others' steps of a gap, as far as there stays room for so many references. */
  function Meanwhile(s: State, t: nat, gap: Gap, arcs: nat, allocs: nat): State
    decreases |gap|
  {
    if gap == [] then s else
    var s' := Step(s, gap[0].0, gap[0].1);
    Meanwhile(if gap[0].0 != t && Roomy(s', arcs, allocs) then s' else s, t, gap[1..], arcs, allocs)
  }

  /** What the rest of the call may add to the first and to the second counter. */
  function ArcsLeft(pc: Pc): nat {
    if pc.CloneAlloc? || pc.CloneData? || pc.UpLoad? || pc.UpCas? then 1 else 0
  }

  function AllocsLeft(pc: Pc): nat {
    if pc.UpLoad? || pc.UpCas? || Allocing(pc) > 0 then 1 else 0
  }

  predicate AddsNothing(pc: Pc) {
    ArcsLeft(pc) == AllocsLeft(pc) == 0
  }

  /** There is room for the rest of the call of thread `t`. */
  predicate HasRoom(s: State, t: nat) {
    t < |s.threads| && Roomy(s, ArcsLeft(s.threads[t]), AllocsLeft(s.threads[t]))
  }

  /** What the others do between two steps of the call of thread `t`. */
  function Pause(s: State, t: nat, gap: Gap): State {
    if t < |s.threads| then Meanwhile(s, t, gap, ArcsLeft(s.threads[t]), AllocsLeft(s.threads[t])) else s
  }

  /** The call has returned, or the process is no more. */
  predicate Done(s: State, t: nat) {
    s.aborted || (t < |s.threads| && (s.threads[t] == Idle || s.threads[t].Mutating?))
  }

  function OwnStep(s: State, t: nat, turn: Turn): State {
    Step(s, t, Choice(Deref, 0, turn.spurious))
  }

  /** Thread `t` takes its turns until its call is over or the process is, or as many as there are. */
  function Finish(s: State, t: nat, turns: seq<Turn>, from: nat): State
    decreases |turns| - from
  {
    if from >= |turns| || Done(s, t) then s else
    var s1 := OwnStep(s, t, turns[from]);
    if Done(s1, t) then s1 else Finish(Pause(s1, t, turns[from].others), t, turns, from + 1)
  }

  /** The turns of a call without loop, in which nothing can fail. */
  predicate Calmly(turns: seq<Turn>) {
    forall turn | turn in turns :: !turn.spurious
  }

  /** The call has begun: its handle is borrowed. */
  function Begun(s: State, t: nat, op: Op, h: nat, first: Gap): State {
    Pause(Step(s, t, Choice(op, h, false)), t, first)
  }

  /** On the way through upgrade. */
  predicate Repeats(pc: Pc) {
    pc.UpLoad? || pc.UpCas? || pc.UpAlloc? || pc.Aborting?
  }

  /**
   The own step ends the call: upgrade reads that no `Arc` is left, or, behind an exchange that found what the
   thread had read, it increments the second counter, which is not too large.
   */
  predicate Settles(s: State, t: nat) {
    && !s.aborted && t < |s.threads|
    && match s.threads[t]
       case UpLoad(_) => s.data == 0
       case UpCas(_, _) => s.data == 0
       case UpAlloc(_, _) => s.alloc <= MAX / 2
       case _ => false
  }

  /** The thread is on its way through upgrade and has room for the handle that it may make. */
  ghost predicate Ready(s: State, t: nat) {
    Inv(s) && HasRoom(s, t) && Repeats(s.threads[t])
  }

  /** Where the own step of upgrade leads. */
  lemma StepGoes(s: State, t: nat, turn: Turn)
    requires t < |s.threads| && !s.aborted && Repeats(s.threads[t]) && PcOk(s, t)
    ensures var s1 := OwnStep(s, t, turn);
      && |s1.threads| == |s.threads|
      && (Done(s1, t) && !s1.aborted <==> Settles(s, t))
      && (!Done(s1, t) ==> Repeats(s1.threads[t]) || s1.threads[t].Panicked?)
      && s1.data + ArcsLeft(s1.threads[t]) <= s.data + ArcsLeft(s.threads[t])
      && (s.alloc < MAX ==> s1.alloc + AllocsLeft(s1.threads[t]) <= s.alloc + AllocsLeft(s.threads[t]))
  {
    match s.threads[t]
    case UpLoad(_) =>
    case UpCas(h, n) => assert OwnStep(s, t, turn) == UpCasStep(s, t, h, n, turn.spurious);
    case UpAlloc(_, i) => assert OwnStep(s, t, turn) == UpAllocStep(s, t, i);
    case Aborting =>
  }

  /** The own step ends the call as it should, or leaves the thread on its way. */
  lemma StepSettles(s: State, t: nat, turn: Turn)
    requires Ready(s, t) && !s.aborted
    ensures var s1 := OwnStep(s, t, turn);
      && (Done(s1, t) && !s1.aborted <==> Settles(s, t))
      && (!Done(s1, t) ==> Ready(s1, t))
  {
    assert PcOk(s, t);
    StepGoes(s, t, turn);
    StepInv(s, t, Choice(Deref, 0, turn.spurious));
    assert PcOk(OwnStep(s, t, turn), t);
  }

  lemma {:induction false} MeanwhileReady(s: State, t: nat, gap: Gap, arcs: nat, allocs: nat)
    requires Ready(s, t) && arcs == ArcsLeft(s.threads[t]) && allocs == AllocsLeft(s.threads[t])
    ensures Ready(Meanwhile(s, t, gap, arcs, allocs), t)
    decreases |gap|
  {
    if gap == [] {
    } else {
      var s' := Step(s, gap[0].0, gap[0].1);
      if gap[0].0 != t && Roomy(s', arcs, allocs) {
        StepInv(s, gap[0].0, gap[0].1);
        ThreadsStay(s, gap[0].0, gap[0].1);
        MeanwhileReady(s', t, gap[1..], arcs, allocs);
      } else {
        MeanwhileReady(s, t, gap[1..], arcs, allocs);
      }
    }
  }

  /** Turn `i` of the call, if it comes to that, ends it. */
  ghost predicate SettlesAt(s: State, t: nat, turns: seq<Turn>, from: nat, i: nat) {
    from <= i < |turns| && Settles(Finish(s, t, turns[..i], from), t)
  }

  /** A turn that does not end the call only moves its start. */
  lemma SettlesLater(s: State, t: nat, turns: seq<Turn>, from: nat, i: nat)
    requires from < |turns| && !Done(s, t) && !Done(OwnStep(s, t, turns[from]), t) && i != from
    ensures var s2 := Pause(OwnStep(s, t, turns[from]), t, turns[from].others);
      SettlesAt(s, t, turns, from, i) <==> SettlesAt(s2, t, turns, from + 1, i)
  {
    if from < i < |turns| { assert turns[..i][from] == turns[from]; }
  }

  /** The call ends within its turns if and only if one of its own steps settles it. */
  ghost predicate EndsWhenSettled(s: State, t: nat, turns: seq<Turn>, from: nat) {
    var s' := Finish(s, t, turns, from);
    Done(s', t) && !s'.aborted <==> exists i: nat :: SettlesAt(s, t, turns, from, i)
  }

  lemma EndsLater(s: State, t: nat, turns: seq<Turn>, from: nat, next: nat)
    requires from < |turns| && next == from + 1 && !Done(s, t) && !Done(OwnStep(s, t, turns[from]), t)
    requires !Settles(s, t)
    requires EndsWhenSettled(Pause(OwnStep(s, t, turns[from]), t, turns[from].others), t, turns, next)
    ensures EndsWhenSettled(s, t, turns, from)
  {
    var s2 := Pause(OwnStep(s, t, turns[from]), t, turns[from].others);
    assert !SettlesAt(s, t, turns, from, from);
    if i: nat :| SettlesAt(s, t, turns, from, i) {
      SettlesLater(s, t, turns, from, i);
    }
    if i: nat :| SettlesAt(s2, t, turns, next, i) {
      SettlesLater(s, t, turns, from, i);
    }
  }

  lemma EndsNow(s: State, t: nat, turns: seq<Turn>, from: nat)
    requires !s.aborted ==> !Done(s, t)
    requires from < |turns| && !s.aborted ==>
      var s1 := OwnStep(s, t, turns[from]); Done(s1, t) && (Settles(s, t) <==> !s1.aborted)
    ensures EndsWhenSettled(s, t, turns, from)
  {
    if from < |turns| && !s.aborted {
      if Settles(s, t) {
        assert SettlesAt(s, t, turns, from, from);
      } else {
        forall i: nat | from < i < |turns|
          ensures !SettlesAt(s, t, turns, from, i)
        {
          assert turns[..i][from] == turns[from];
        }
      }
    }
  }

  lemma {:induction false} EveryCallEnds(s: State, t: nat, turns: seq<Turn>, from: nat)
    requires Ready(s, t)
    ensures EndsWhenSettled(s, t, turns, from)
    decreases |turns| - from
  {
    if from >= |turns| || s.aborted {
      EndsNow(s, t, turns, from);
    } else {
      StepSettles(s, t, turns[from]);
      if Done(OwnStep(s, t, turns[from]), t) {
        EndsNow(s, t, turns, from);
      } else {
        var s1 := OwnStep(s, t, turns[from]);
        MeanwhileReady(s1, t, turns[from].others, ArcsLeft(s1.threads[t]), AllocsLeft(s1.threads[t]));
        EveryCallEnds(Pause(OwnStep(s, t, turns[from]), t, turns[from].others), t, turns, from + 1);
        EndsLater(s, t, turns, from, from + 1);
      }
    }
  }

  class Block {
    const n: nat
    var data: nat
    var alloc: nat
    var dropped: nat
    var freed: nat
    var bad: bool
    var aborted: bool
    var last: Role
    var freer: Role
    var handles: seq<Handle>
    var threads: seq<Pc>
    ghost var trace: Gap

    function Abs(): State
      reads this
    {
      State(data, alloc, dropped, freed, bad, aborted, last, freer, handles, threads)
    }

    ghost predicate Valid()
      reads this
    {
      AlwaysBounded(Init(n), trace) && Abs() == Run(Init(n), trace)
    }

    ghost function At(j: nat): State
      requires j <= |trace|
      reads this
    {
      Run(Init(n), trace[..j])
    }

    /** Step `j` is thread `t`'s decrement for `h`, and it takes the first count to 0 if and only if `ended`. */
    ghost predicate CountedDown(j: nat, t: nat, h: nat, ended: bool)
      reads this
    {
      && j < |trace| && trace[j].0 == t
      && t < |At(j).threads| && At(j).threads[t] == Dropping(h) && (ended <==> At(j).data == 1)
    }

    /** What has happened stays so. */
    lemma Past(soFar: Gap, j: nat)
      requires soFar <= trace && j <= |soFar|
      ensures At(j) == Run(Init(n), soFar[..j]) && (j < |soFar| ==> trace[j] == soFar[j])
    {
      assert trace[..j] == soFar[..j];
    }

    /** Step `j` is thread `t`'s, and makes handle `i`. */
    ghost predicate Created(j: nat, t: nat, i: nat, kind: Handle)
      reads this
    {
      && j < |trace| && trace[j].0 == t
      && |At(j).handles| == i && At(j + 1).handles == At(j).handles + [kind]
    }

    /** `Arc::new`. */
    constructor (n: nat)
      ensures Valid() && this.n == n && Abs() == Init(n)
    {
      this.n := n;
      data, alloc, dropped, freed, bad, aborted := 1, 1, 0, 0, false, false;
      last, freer := Nobody, Nobody;
      handles, threads := [Arc], Init(n).threads;
      trace := [];
      new;
      assert handles[1..] == [];
    }

    lemma Known()
      requires Valid()
      ensures Inv(Abs()) && Bounded(Abs())
    {
      InitInv(n);
      RunInv(Init(n), trace);
    }

    ghost method Record(before: State, t: nat, c: Choice)
      requires AlwaysBounded(Init(n), trace) && before == Run(Init(n), trace)
      requires Abs() == Step(before, t, c) && Bounded(Abs())
      modifies this`trace
      ensures Valid() && trace == old(trace) + [(t, c)] && At(|trace| - 1) == before
    {
      RunSnoc(Init(n), trace, t, c);
      assert (trace + [(t, c)])[..|trace|] == trace;
      trace := trace + [(t, c)];
    }

    method Restore(s: State)
      modifies this
      ensures Abs() == s && trace == old(trace)
    {
      data, alloc, dropped, freed, bad, aborted := s.data, s.alloc, s.dropped, s.freed, s.bad, s.aborted;
      last, freer, handles, threads := s.last, s.freer, s.handles, s.threads;
    }

    method Others(t: nat, gap: Gap, arcs: nat, allocs: nat)
      requires Valid() && t < |threads| && (arcs == allocs == 0 || Roomy(Abs(), arcs, allocs))
      modifies this
      ensures Valid() && old(trace) <= trace && Roomy(Abs(), arcs, allocs)
      ensures |threads| == old(|threads|) && threads[t] == old(threads[t]) && old(dropped) <= dropped <= 1
      ensures forall h: nat | h < old(|handles|) && old(handles)[h] == Gone :: h < |handles| && handles[h] == Gone
      ensures Abs() == Meanwhile(old(Abs()), t, gap, arcs, allocs)
    {
      Known();
      for i := 0 to |gap|
        invariant Valid() && old(trace) <= trace && Roomy(Abs(), arcs, allocs)
        invariant |threads| == old(|threads|) && threads[t] == old(threads[t]) && old(dropped) <= dropped <= 1
        invariant forall h: nat | h < old(|handles|) && old(handles)[h] == Gone :: h < |handles| && handles[h] == Gone
        invariant Meanwhile(Abs(), t, gap[i..], arcs, allocs) == Meanwhile(old(Abs()), t, gap, arcs, allocs)
      {
        assert gap[i..][1..] == gap[i + 1..];
        var s := Step(Abs(), gap[i].0, gap[i].1);
        if gap[i].0 != t && Roomy(s, arcs, allocs) {
          ghost var before := Abs();
          Known();
          StepInv(before, gap[i].0, gap[i].1);
          ThreadsStay(before, gap[i].0, gap[i].1);
          DroppedStays(before, gap[i].0, gap[i].1);
          forall h: nat | h < |handles| && handles[h] == Gone
            ensures h < |s.handles| && s.handles[h] == Gone
          {
            GoneStays(before, gap[i].0, gap[i].1, h);
          }
          Restore(s);
          Record(before, gap[i].0, gap[i].1);
        }
      }
    }

    method Borrow(t: nat, op: Op, h: nat)
      requires Valid() && !aborted && t < |threads| && threads[t] == Idle
      requires Admits(handles, Loans(threads), LoanOf(First(op, h)))
      modifies this
      ensures Valid() && old(trace) < trace && !aborted && data == old(data) && alloc == old(alloc)
      ensures |threads| == old(|threads|) && threads[t] == First(op, h)
      ensures Abs() == Step(old(Abs()), t, Choice(op, h, false))
    {
      ghost var before := Abs();
      Known();
      threads := threads[t := First(op, h)];
      Record(before, t, Choice(op, h, false));
    }

    /** The own step of turn `g` did not end the call; now the others take theirs. */
    method EndTurn(t: nat, turns: seq<Turn>, g: nat, ghost before: State, ghost goal: State) returns (next: nat)
      requires Valid() && g < |turns| && !Done(before, t) && !Done(Abs(), t)
      requires t < |threads| && (AddsNothing(threads[t]) || HasRoom(Abs(), t))
      requires Abs() == OwnStep(before, t, turns[g]) && Finish(before, t, turns, g) == goal
      modifies this
      ensures Valid() && old(trace) <= trace && HasRoom(Abs(), t)
      ensures |threads| == old(|threads|) && threads[t] == old(threads[t]) && old(dropped) <= dropped <= 1
      ensures forall h: nat | h < old(|handles|) && old(handles)[h] == Gone :: h < |handles| && handles[h] == Gone
      ensures next == g + 1 && Finish(Abs(), t, turns, next) == goal
    {
      Others(t, turns[g].others, ArcsLeft(threads[t]), AllocsLeft(threads[t]));
      next := g + 1;
    }

    /** The call borrows its handle, and others do `first` before its first step. */
    method BeginCall(t: nat, op: Op, h: nat, first: Gap)
      requires Valid() && !aborted && t < |threads| && threads[t] == Idle
      requires AddsNothing(First(op, h)) || Roomy(Abs(), ArcsLeft(First(op, h)), AllocsLeft(First(op, h)))
      requires Admits(handles, Loans(threads), LoanOf(First(op, h)))
      modifies this
      ensures Valid() && old(trace) < trace && |threads| == old(|threads|) && HasRoom(Abs(), t)
      ensures threads[t] == First(op, h) && Abs() == old(Begun(Abs(), t, op, h, first))
    {
      Borrow(t, op, h);
      Others(t, first, ArcsLeft(threads[t]), AllocsLeft(threads[t]));
    }

    /** `std::process::abort()`. */
    method Abort(t: nat)
      requires Valid() && !aborted && t < |threads| && threads[t] == Aborting
      modifies this
      ensures Valid() && old(trace) <= trace && aborted && |threads| == old(|threads|)
      ensures forall c: Choice :: Abs() == Step(old(Abs()), t, c)
    {
      ghost var before := Abs();
      Known();
      aborted := true;
      Record(before, t, CALM);
    }

    /** `alloc_ref_count.fetch_add(1)` for a new `Weak`, or for the one inside a new `Arc`. */
    method IncrementAlloc(t: nat, kind: Handle, pc: Pc) returns (ok: bool)
      requires Valid() && Roomy(Abs(), 0, 1) && !aborted && t < |threads|
      requires (threads[t].CloneAlloc? && kind == Stray(0, 1, t) && pc == CloneData(threads[t].h, |handles|))
               || ((threads[t].DownAlloc? || threads[t].WeakCloning?) && kind == Weak && pc == Idle)
      modifies this
      ensures Valid() && old(trace) <= trace && !aborted && |threads| == old(|threads|)
      ensures ok ==> handles == old(handles) + [kind] && threads[t] == pc && freed == 0
      ensures |trace| == |old(trace)| + 1 && (ok ==> Created(|trace| - 1, t, |handles| - 1, kind))
      ensures alloc == old(alloc) + 1 && data == old(data) && (ok <==> old(alloc) <= MAX / 2)
      ensures !ok ==> threads[t] == Aborting
      ensures Abs() == Step(old(Abs()), t, CALM)
    {
      ghost var before := Abs();
      Known();
      Safe(before, t);
      ok := alloc <= MAX / 2;
      alloc := alloc + 1;
      handles := handles + [if ok then kind else Stray(0, 1, t)];
      threads := threads[t := if ok then pc else Aborting];
      StepFits(before, t, CALM);
      Record(before, t, CALM);
      assert trace[..|trace|] == trace;
    }

    /** The body of both. */
    method AddWeak(t: nat, ghost goal: State) returns (r: Answer)
      requires Valid() && HasRoom(Abs(), t) && !aborted && (threads[t].DownAlloc? || threads[t].WeakCloning?)
      requires Finish(Abs(), t, [QUIET, QUIET], 0) == goal
      modifies this
      ensures Valid() && old(trace) <= trace && |threads| == old(|threads|) && Abs() == goal
      ensures r.Some? ==> r.i < |handles| && handles[r.i] == Weak && freed == 0 && threads[t] == Idle
      ensures r.Some? ==> alloc <= MAX / 2 + 1 && Created(old(|trace|), t, r.i, Weak)
      ensures !r.Some? ==> aborted
    {
      var ok := IncrementAlloc(t, Weak, Idle);
      if !ok {
        Abort(t);
        return Unfinished;
      }
      r := Some(|handles| - 1);
    }

    /** `Arc::downgrade` and `Weak::clone`. */
    method NewWeak(t: nat, op: Op, h: nat, gap: Gap) returns (r: Answer)
      requires Valid() && Roomy(Abs(), 0, 1) && !aborted && t < |threads| && threads[t] == Idle
      requires (op == Downgrade && Admits(handles, Loans(threads), Shared(h, Arc)))
               || (op == CloneWeak && Admits(handles, Loans(threads), Shared(h, Weak)))
      modifies this
      ensures Valid() && old(trace) <= trace && |threads| == old(|threads|)
      ensures r.Some? ==> r.i < |handles| && handles[r.i] == Weak && freed == 0 && threads[t] == Idle
      ensures r.Some? ==> alloc <= MAX / 2 + 1
      ensures r.Some? ==> exists j: nat :: old(|trace|) <= j && Created(j, t, r.i, Weak)
      ensures !r.Some? ==> aborted
      ensures Abs() == Finish(old(Begun(Abs(), t, op, h, gap)), t, [QUIET, QUIET], 0)
    {
      BeginCall(t, op, h, gap);
      if aborted {
        return Unfinished;
      }
      r := AddWeak(t, Finish(Abs(), t, [QUIET, QUIET], 0));
    }

    /** `data_ref_count.fetch_add(1)` of clone. */
    method IncrementData(t: nat, h: nat, i: nat) returns (ok: bool)
      requires Valid() && Roomy(Abs(), 1, 0) && !aborted && t < |threads| && threads[t] == CloneData(h, i)
      modifies this
      ensures Valid() && old(trace) <= trace && !aborted && |threads| == old(|threads|)
      ensures ok ==> i < |handles| && handles[i] == Arc && dropped == 0 && threads[t] == Idle
      ensures !ok ==> threads[t] == Aborting
      ensures data == old(data) + 1 && (ok <==> old(data) <= MAX / 2)
      ensures Abs() == Step(old(Abs()), t, CALM)
    {
      ghost var before := Abs();
      Known();
      Safe(before, t);
      assert PcOk(before, t);
      ok := data <= MAX / 2;
      data := data + 1;
      handles := handles[i := if ok then Arc else Stray(1, 1, t)];
      threads := threads[t := if ok then Idle else Aborting];
      StepFits(before, t, CALM);
      Record(before, t, CALM);
    }

    /** The second half of clone. */
    method CloneFinish(t: nat, h: nat, i: nat, turns: seq<Turn>, g: nat, ghost goal: State) returns (r: Answer)
      requires Valid() && t < |threads| && threads[t] == CloneData(h, i) && HasRoom(Abs(), t)
      requires Calmly(turns) && g + 2 <= |turns| && turns[g].others == [] && Finish(Abs(), t, turns, g) == goal
      modifies this
      ensures Valid() && old(trace) <= trace && |threads| == old(|threads|) && Abs() == goal
      ensures r.Some? ==> r.i == i < |handles| && handles[i] == Arc && dropped == 0 && threads[t] == Idle
      ensures r.Some? ==> data <= MAX / 2 + 1
      ensures !r.Some? ==> aborted
    {
      if aborted {
        return Unfinished;
      }
      var ok := IncrementData(t, h, i);
      if !ok {
        Abort(t);
        return Unfinished;
      }
      r := Some(i);
    }

    /** The increment of the second counter, and what the others do before that of the first. */
    method CloneTurn(t: nat, h: nat, turns: seq<Turn>, g: nat, ghost goal: State) returns (ok: bool, i: nat, next: nat)
      requires Valid() && !aborted && t < |threads| && threads[t] == CloneAlloc(h) && HasRoom(Abs(), t)
      requires Calmly(turns) && g < |turns| && Finish(Abs(), t, turns, g) == goal
      modifies this
      ensures Valid() && old(trace) < trace && |threads| == old(|threads|)
      ensures next == g + 1 && Finish(Abs(), t, turns, next) == goal
      ensures threads[t] == (if ok then CloneData(h, i) else Aborting) && HasRoom(Abs(), t)
      ensures ok ==> Created(old(|trace|), t, i, Stray(0, 1, t))
    {
      i := |handles|;
      ok := IncrementAlloc(t, Stray(0, 1, t), CloneData(h, i));
      ghost var soFar := trace;
      next := EndTurn(t, turns, g, old(Abs()), goal);
      Past(soFar, old(|trace|));
      Past(soFar, |soFar|);
    }

    /** The body of clone. */
    method CloneBoth(t: nat, h: nat, turns: seq<Turn>, g: nat, ghost goal: State) returns (r: Answer)
      requires Valid() && !aborted && t < |threads| && threads[t] == CloneAlloc(h) && HasRoom(Abs(), t)
      requires Calmly(turns) && g + 3 <= |turns| && turns[g + 1].others == [] && Finish(Abs(), t, turns, g) == goal
      modifies this
      ensures Valid() && old(trace) <= trace && |threads| == old(|threads|) && Abs() == goal
      ensures r.Some? ==> r.i < |handles| && handles[r.i] == Arc && dropped == 0 && threads[t] == Idle
      ensures r.Some? ==> data <= MAX / 2 + 1
      ensures r.Some? ==> Created(old(|trace|), t, r.i, Stray(0, 1, t))
      ensures !r.Some? ==> aborted
    {
      var ok, i, next := CloneTurn(t, h, turns, g, goal);
      ghost var soFar := trace;
      if ok {
        r := CloneFinish(t, h, i, turns, next, goal);
      } else {
        if !aborted {
          Abort(t);
        }
        r := Unfinished;
      }
      Past(soFar, old(|trace|));
      Past(soFar, old(|trace|) + 1);
    }

    /** `Arc::clone` increments the second counter first. */
    method Clone(t: nat, h: nat, first: Gap, second: Gap) returns (r: Answer)
      requires Valid() && Roomy(Abs(), 1, 1) && !aborted && t < |threads| && threads[t] == Idle
      requires Admits(handles, Loans(threads), Shared(h, Arc))
      modifies this
      ensures Valid() && old(trace) <= trace && |threads| == old(|threads|)
      ensures r.Some? ==> r.i < |handles| && handles[r.i] == Arc && dropped == 0 && threads[t] == Idle
      ensures r.Some? ==> data <= MAX / 2 + 1
      ensures r.Some? ==> exists j: nat :: old(|trace|) <= j && Created(j, t, r.i, Stray(0, 1, t))
      ensures !r.Some? ==> aborted
      ensures Abs() == Finish(old(Begun(Abs(), t, Op.Clone, h, first)), t, [Turn(false, second), QUIET, QUIET], 0)
    {
      BeginCall(t, Op.Clone, h, first);
      if aborted {
        return Unfinished;
      }
      var turns := [Turn(false, second), QUIET, QUIET];
      r := CloneBoth(t, h, turns, 0, Finish(Abs(), t, turns, 0));
    }

    /** There was a strong reference after the first `j` steps if and only if `some`. */
    ghost predicate HadArc(j: nat, some: bool)
      reads this
    {
      j <= |trace| && (some <==> Arcs(At(j).handles) > 0)
    }

    /** upgrade borrows its handle; what decides whether it ends. */
    method BeginUpgrade(t: nat, h: nat, first: Gap, ghost turns: seq<Turn>)
      requires Valid() && Roomy(Abs(), 1, 1) && !aborted && t < |threads| && threads[t] == Idle
      requires Admits(handles, Loans(threads), Shared(h, Weak))
      modifies this
      ensures Valid() && old(trace) < trace && |threads| == old(|threads|) && HasRoom(Abs(), t)
      ensures threads[t] == UpLoad(h) && Abs() == old(Begun(Abs(), t, Op.Upgrade, h, first))
      ensures EndsWhenSettled(Abs(), t, turns, 0)
    {
      BeginCall(t, Op.Upgrade, h, first);
      Known();
      EveryCallEnds(Abs(), t, turns, 0);
    }

    lemma UpgradeMoves(t: nat, h: nat, m: nat, spurious: bool)
      requires Valid() && Roomy(Abs(), 1, 1) && !aborted && t < |threads| && threads[t] == UpCas(h, m)
      ensures m > 0 && Arcs(handles) == data < MAX
      ensures var s' := Step(Abs(), t, Choice(Deref, 0, spurious));
        && Bounded(s')
        && s' == if data == m && !spurious
                 then Abs().(data := m + 1, handles := handles + [Stray(1, 0, t)],
                             threads := threads[t := UpAlloc(h, |handles|)])
                 else Abs().(threads := threads[t := UpDecide(h, data)])
    {
      Known();
      assert PcOk(Abs(), t);
      Safe(Abs(), t);
      StepFits(Abs(), t, Choice(Deref, 0, spurious));
    }

    /** `data_ref_count.compare_exchange_weak(m, m + 1)`. */
    method UpgradeExchange(t: nat, h: nat, m: nat, turn: Turn) returns (ok: bool, seen: nat)
      requires Valid() && Roomy(Abs(), 1, 1) && !aborted && t < |threads| && threads[t] == UpCas(h, m)
      modifies this
      ensures Valid() && old(trace) < trace && |trace| == |old(trace)| + 1 && !aborted && |threads| == old(|threads|)
      ensures ok ==> threads[t] == UpAlloc(h, |old(handles)|) && Roomy(Abs(), 0, 1)
      ensures ok ==> HadArc(|trace| - 1, true) && Created(|trace| - 1, t, |old(handles)|, Stray(1, 0, t))
      ensures !ok ==> Roomy(Abs(), 1, 1) && seen == data < MAX && threads[t] == UpDecide(h, seen)
      ensures !ok ==> HadArc(|trace| - 1, seen > 0)
      ensures Abs() == OwnStep(old(Abs()), t, turn)
    {
      UpgradeMoves(t, h, m, turn.spurious);
      ghost var before := Abs();
      seen := data;
      ok := data == m && !turn.spurious;
      if ok {
        data := m + 1;
        threads := threads[t := UpAlloc(h, |handles|)];
        handles := handles + [Stray(1, 0, t)];
      } else {
        threads := threads[t := UpDecide(h, seen)];
      }
      Record(before, t, Choice(Deref, 0, turn.spurious));
      assert trace[..|trace|] == trace;
    }

    /** The answer of upgrade on which step `j` has decided. */
    ghost predicate Answered(j: nat, t: nat, r: Answer)
      reads this
    {
      HadArc(j, r.Some?) && (r.Some? ==> Created(j, t, r.i, Stray(1, 0, t)))
    }

    /** One pass of the loop of upgrade; Some says that the exchange has made handle `r.i`. */
    method UpgradeOnce(t: nat, h: nat, m: nat, turns: seq<Turn>, g: nat, ghost goal: State)
        returns (r: Answer, seen: nat, next: nat)
      requires Valid() && Roomy(Abs(), 1, 1) && !aborted && t < |threads| && threads[t] == UpCas(h, m)
      requires g < |turns| && Finish(Abs(), t, turns, g) == goal
      modifies this
      ensures Valid() && old(trace) < trace && |threads| == old(|threads|)
      ensures r.None? ==> threads[t] == Idle && data == 0 && !aborted && Abs() == goal
      ensures r.Some? ==> threads[t] == UpAlloc(h, r.i)
      ensures !r.Unfinished? ==> Answered(old(|trace|), t, r)
      ensures r.Unfinished? ==> threads[t] == UpCas(h, seen)
      ensures next == g + 1 && (!r.None? ==> HasRoom(Abs(), t) && Finish(Abs(), t, turns, next) == goal)
    {
      var i, ok := |handles|, false;
      next := g + 1;
      ghost var j := |trace|;
      ok, seen := UpgradeExchange(t, h, m, turns[g]);
      if ok {
        ghost var soFar := trace;
        next := EndTurn(t, turns, g, old(Abs()), goal);
        Past(soFar, j);
        Past(soFar, j + 1);
        r := Some(i);
      } else if seen == 0 {
        r := None;
      } else {
        next := EndTurn(t, turns, g, old(Abs()), goal);
        r := Unfinished;
      }
    }

    /** The loop of upgrade, up to a successful exchange. */
    method UpgradeLoop(t: nat, h: nat, turns: seq<Turn>, from: nat, m: nat, ghost goal: State)
        returns (r: Answer, next: nat, ghost j: nat)
      requires Valid() && HasRoom(Abs(), t) && t < |threads| && threads[t] == UpCas(h, m)
      requires Finish(Abs(), t, turns, from) == goal
      modifies this
      ensures Valid() && old(trace) <= trace && |threads| == old(|threads|)
      ensures r.None? ==> threads[t] == Idle && data == 0 && !aborted && Abs() == goal
      ensures r.Some? ==> threads[t] == UpAlloc(h, r.i)
      ensures !r.Unfinished? ==> old(|trace|) <= j < |trace| && Answered(j, t, r)
      ensures r.Unfinished? ==> Abs() == goal && (aborted || !Done(Abs(), t))
      ensures !r.None? ==> HasRoom(Abs(), t) && Finish(Abs(), t, turns, next) == goal
    {
      next := from;
      var seen: nat := m;
      r, j := Unfinished, 0;
      while next < |turns| && !aborted && r.Unfinished?
        invariant Valid() && old(trace) <= trace && |threads| == old(|threads|)
        invariant r.None? ==> threads[t] == Idle && data == 0 && !aborted && Abs() == goal
        invariant r.Some? ==> threads[t] == UpAlloc(h, r.i)
        invariant !r.Unfinished? ==> old(|trace|) <= j < |trace| && Answered(j, t, r)
        invariant r.Unfinished? ==> threads[t] == UpCas(h, seen)
        invariant !r.None? ==> HasRoom(Abs(), t) && Finish(Abs(), t, turns, next) == goal
        decreases |turns| - next
      {
        j := |trace|;
        r, seen, next := UpgradeOnce(t, h, seen, turns, next, goal);
      }
    }

    method UpgradeLoad(t: nat, h: nat, ghost turn: Turn) returns (m: nat)
      requires Valid() && Roomy(Abs(), 1, 1) && !aborted && t < |threads| && threads[t] == UpLoad(h)
      modifies this
      ensures Valid() && old(trace) < trace && Roomy(Abs(), 1, 1)
      ensures !aborted && |threads| == old(|threads|)
      ensures m == data && threads[t] == UpDecide(h, m) && m < MAX
      ensures HadArc(|trace| - 1, m > 0) && Abs() == OwnStep(old(Abs()), t, turn)
    {
      ghost var before := Abs();
      Known();
      Safe(before, t);
      m := data;
      threads := threads[t := UpDecide(h, m)];
      StepFits(before, t, Choice(Deref, 0, turn.spurious));
      Record(before, t, Choice(Deref, 0, turn.spurious));
    }

    /** `alloc_ref_count.fetch_add(1)` of upgrade. */
    method UpgradeIncrement(t: nat, h: nat, i: nat, ghost turn: Turn) returns (ok: bool)
      requires Valid() && !aborted && t < |threads| && threads[t] == UpAlloc(h, i)
      requires Roomy(Abs(), 0, 1)
      modifies this
      ensures Valid() && old(trace) <= trace && !aborted && |threads| == old(|threads|)
      ensures ok ==> i < |handles| && handles[i] == Arc && dropped == 0 && threads[t] == Idle
      ensures !ok ==> threads[t] == Aborting
      ensures Roomy(Abs(), 0, 0) && Abs() == OwnStep(old(Abs()), t, turn)
    {
      ghost var before := Abs();
      Known();
      Safe(before, t);
      assert PcOk(before, t);
      SumAtLeast(handles, i, ArcShare);
      ok := alloc <= MAX / 2;
      alloc := alloc + 1;
      handles := handles[i := if ok then Arc else Stray(1, 1, t)];
      threads := threads[t := if ok then Idle else Aborting];
      StepFits(before, t, Choice(Deref, 0, turn.spurious));
      Record(before, t, Choice(Deref, 0, turn.spurious));
    }

    /** The `Weak::clone` at the end of upgrade. */
    method UpgradeFinish(t: nat, h: nat, i: nat, turns: seq<Turn>, g: nat, ghost goal: State) returns (r: Answer)
      requires Valid() && t < |threads| && threads[t] == UpAlloc(h, i)
      requires HasRoom(Abs(), t) && Finish(Abs(), t, turns, g) == goal
      modifies this
      ensures Valid() && old(trace) <= trace && |threads| == old(|threads|) && Abs() == goal
      ensures r.Some? ==> r.i < |handles| && handles[r.i] == Arc && dropped == 0 && threads[t] == Idle
      ensures r == if aborted || !Done(Abs(), t) then Unfinished else Some(i)
    {
      if aborted || g >= |turns| {
        return Unfinished;
      }
      var ok := UpgradeIncrement(t, h, i, turns[g]);
      if ok {
        return Some(i);
      }
      var next := EndTurn(t, turns, g, old(Abs()), goal);
      if !aborted && next < |turns| {
        Abort(t);
      }
      r := Unfinished;
    }

    /** What upgrade does behind its load. */
    method UpgradeRest(t: nat, h: nat, turns: seq<Turn>, from: nat, m: nat, ghost goal: State)
        returns (r: Answer, ghost j: nat)
      requires Valid() && HasRoom(Abs(), t) && t < |threads| && threads[t] == UpCas(h, m)
      requires Finish(Abs(), t, turns, from) == goal
      modifies this
      ensures Valid() && old(trace) <= trace && |threads| == old(|threads|) && Abs() == goal
      ensures r.Some? ==> r.i < |handles| && handles[r.i] == Arc && dropped == 0 && threads[t] == Idle
      ensures r.None? ==> data == 0 && threads[t] == Idle
      ensures r.Unfinished? <==> aborted || !Done(Abs(), t)
      ensures !r.Unfinished? ==> old(|trace|) <= j && Answered(j, t, r)
    {
      var next;
      r, next, j := UpgradeLoop(t, h, turns, from, m, goal);
      if r.Some? {
        ghost var soFar := trace;
        r := UpgradeFinish(t, h, r.i, turns, next, goal);
        Past(soFar, j);
        Past(soFar, j + 1);
      }
    }

    /** `Weak::upgrade`: the answer is right at a moment of the call, and comes as soon as a step settles it. */
    method Upgrade(t: nat, h: nat, first: Gap, turns: seq<Turn>) returns (r: Answer)
      requires Valid() && Roomy(Abs(), 1, 1) && !aborted && t < |threads| && threads[t] == Idle
      requires Admits(handles, Loans(threads), Shared(h, Weak))
      modifies this
      ensures Valid() && old(trace) <= trace && |threads| == old(|threads|)
      ensures r.Some? ==> r.i < |handles| && handles[r.i] == Arc && dropped == 0 && threads[t] == Idle
      ensures r.None? ==> data == 0 && threads[t] == Idle
      ensures !r.Unfinished? ==> exists j: nat :: old(|trace|) <= j && Answered(j, t, r)
      ensures Abs() == Finish(old(Begun(Abs(), t, Op.Upgrade, h, first)), t, turns, 0)
      ensures !r.Unfinished? <==> exists i: nat :: SettlesAt(old(Begun(Abs(), t, Op.Upgrade, h, first)), t, turns, 0, i)
    {
      BeginUpgrade(t, h, first, turns);
      ghost var goal := Finish(Abs(), t, turns, 0);
      if aborted || turns == [] {
        return Unfinished;
      }
      ghost var before := Abs();
      var m := UpgradeLoad(t, h, turns[0]);
      if m == 0 {
        r := None;
        assert Answered(|trace| - 1, t, r);
        return;
      }
      var g := EndTurn(t, turns, 0, before, goal);
      ghost var j;
      r, j := UpgradeRest(t, h, turns, g, m, goal);
    }

    /** `alloc_ref_count.load(Relaxed) == 1`, which may be stale. */
    method GetMutLoad(t: nat, h: nat, stale: bool) returns (unique: bool)
      requires Valid() && !aborted && t < |threads| && threads[t] == GmLoad(h)
      modifies this
      ensures Valid() && old(trace) <= trace && |threads| == old(|threads|) && !aborted
      ensures threads[t] == if unique then Mutating(h) else Idle
      ensures Abs() == Step(old(Abs()), t, Choice(Deref, 0, stale))
      ensures unique ==> Arcs(handles) == Allocs(handles) == 1 && dropped == 0 && !stale
      ensures !unique ==> Allocs(handles) > 1 || stale
    {
      ghost var before := Abs();
      Known();
      Safe(before, t);
      WorksOn(before, t);
      InvGetMut(before, t, h, stale);
      unique := alloc == 1 && !stale;
      threads := threads[t := if unique then Mutating(h) else Idle];
      StepFits(before, t, Choice(Deref, 0, stale));
      Record(before, t, Choice(Deref, 0, stale));
    }

    /** `Arc::get_mut` decides by one load of the second counter; a stale one refuses. */
    method GetMut(t: nat, h: nat, gap: Gap, stale: bool) returns (r: Answer)
      requires Valid() && !aborted && t < |threads| && threads[t] == Idle
      requires Admits(handles, Loans(threads), Exclusive(h, Arc))
      modifies this
      ensures Valid() && old(trace) <= trace && |threads| == old(|threads|)
      ensures r.Some? ==> r.i == h && threads[t] == Mutating(h) && !stale
      ensures r.Some? ==> Arcs(handles) == Allocs(handles) == 1 && dropped == 0
      ensures r.None? ==> threads[t] == Idle && (Allocs(handles) > 1 || stale)
      ensures r.Unfinished? ==> aborted
      ensures Abs() == Finish(old(Begun(Abs(), t, Op.GetMut, h, gap)), t, [Turn(stale, [])], 0)
    {
      BeginCall(t, Op.GetMut, h, gap);
      if aborted {
        return Unfinished;
      }
      var unique := GetMutLoad(t, h, stale);
      r := if unique then Some(h) else None;
    }

    /** `*ptr = None` drops T. */
    method DropT(t: nat, h: nat)
      requires Valid() && !aborted && t < |threads| && threads[t] == DropData(h)
      modifies this
      ensures Valid() && old(trace) <= trace && !aborted && |threads| == old(|threads|)
      ensures threads[t] == DropAlloc(h) && old(dropped) == 0 && dropped == 1
      ensures Abs() == Step(old(Abs()), t, CALM)
    {
      ghost var before := Abs();
      Known();
      assert PcOk(before, t);
      Safe(before, t);
      dropped := dropped + 1;
      last := Nobody;
      threads := threads[t := DropAlloc(h)];
      StepFits(before, t, CALM);
      Record(before, t, CALM);
    }

    lemma AllocLowers(t: nat, i: nat)
      requires Valid() && !aborted && t < |threads|
      requires threads[t] == DropAlloc(i) || threads[t] == WeakDropping(i)
      ensures alloc > 0 && i < |handles| && dropped <= 1
      ensures Bounded(Step(Abs(), t, CALM))
      ensures var free := alloc == 1;
        Step(Abs(), t, CALM) == Abs().(alloc := alloc - 1, handles := handles[i := Gone],
                                       threads := threads[t := if free then Freeing else Idle],
                                       freer := if free then By(t) else freer)
    {
      Known();
      Safe(Abs(), t);
      WorksOn(Abs(), t);
      StepFits(Abs(), t, CALM);
    }

    /** `alloc_ref_count.fetch_sub(1)`. */
    method FetchSubAlloc(t: nat, i: nat) returns (free: bool)
      requires Valid() && !aborted && t < |threads|
      requires threads[t] == DropAlloc(i) || threads[t] == WeakDropping(i)
      modifies this
      ensures Valid() && old(trace) <= trace && !aborted && |threads| == old(|threads|)
      ensures dropped == old(dropped) <= 1 && (free <==> old(alloc) == 1) && i < |handles| && handles[i] == Gone
      ensures threads[t] == (if free then Freeing else Idle) && Abs() == Step(old(Abs()), t, CALM)
    {
      AllocLowers(t, i);
      ghost var before := Abs();
      free := alloc == 1;
      alloc := alloc - 1;
      handles := handles[i := Gone];
      threads := threads[t := if free then Freeing else Idle];
      freer := if free then By(t) else freer;
      Record(before, t, CALM);
    }

    method Free(t: nat)
      requires Valid() && !aborted && t < |threads| && threads[t] == Freeing
      modifies this
      ensures Valid() && old(trace) <= trace && !aborted && |threads| == old(|threads|)
      ensures threads[t] == Idle && old(freed) == 0 && freed == 1 && dropped == old(dropped) && handles == old(handles)
      ensures Abs() == Step(old(Abs()), t, CALM)
    {
      ghost var before := Abs();
      Known();
      assert PcOk(before, t);
      Safe(before, t);
      freed := freed + 1;
      freer := Nobody;
      threads := threads[t := Idle];
      StepFits(before, t, CALM);
      Record(before, t, CALM);
    }

    /** The drop of a `Weak`: who takes the second count to 0 frees the block. */
    method DecrementAlloc(t: nat, i: nat, turns: seq<Turn>, g: nat, ghost goal: State)
      requires Valid() && !aborted && t < |threads|
      requires threads[t] == DropAlloc(i) || threads[t] == WeakDropping(i)
      requires Calmly(turns) && g + 2 <= |turns| && Finish(Abs(), t, turns, g) == goal
      modifies this
      ensures Valid() && old(trace) <= trace && |threads| == old(|threads|) && old(dropped) <= dropped <= 1
      ensures !aborted ==> threads[t] == Idle && i < |handles| && handles[i] == Gone && (old(alloc) == 1 ==> freed == 1)
      ensures Abs() == goal
    {
      var free := FetchSubAlloc(t, i);
      if free {
        var _ := EndTurn(t, turns, g, old(Abs()), goal);
        if aborted {
          return;
        }
        Free(t);
      }
    }

    /** What the last `Arc` owes: T, and then the `Weak` inside the `Arc`. */
    method DropBoth(t: nat, h: nat, turns: seq<Turn>, g: nat, ghost goal: State)
      requires Valid() && t < |threads| && threads[t] == DropData(h)
      requires Calmly(turns) && g + 3 <= |turns| && Finish(Abs(), t, turns, g) == goal
      modifies this
      ensures Valid() && old(trace) <= trace && |threads| == old(|threads|) && Abs() == goal
      ensures !aborted ==> threads[t] == Idle && h < |handles| && handles[h] == Gone && dropped == 1
    {
      if aborted {
        return;
      }
      DropT(t, h);
      var next := EndTurn(t, turns, g, old(Abs()), goal);
      if aborted {
        return;
      }
      DecrementAlloc(t, h, turns, next, goal);
    }

    lemma DataLowers(t: nat, h: nat)
      requires Valid() && !aborted && t < |threads| && threads[t] == Dropping(h)
      ensures data > 0 && h < |handles|
      ensures var ended := data == 1; var s' := Step(Abs(), t, CALM);
        && Bounded(s')
        && s' == Abs().(data := data - 1, handles := handles[h := Stray(0, 1, t)],
                        threads := threads[t := if ended then DropData(h) else DropAlloc(h)],
                        last := if ended then By(t) else last)
    {
      Known();
      Safe(Abs(), t);
      WorksOn(Abs(), t);
      StepFits(Abs(), t, CALM);
    }

    /** `data_ref_count.fetch_sub(1)`. */
    method DecrementData(t: nat, h: nat) returns (ended: bool)
      requires Valid() && !aborted && t < |threads| && threads[t] == Dropping(h)
      modifies this
      ensures Valid() && old(trace) <= trace && !aborted && |threads| == old(|threads|)
      ensures threads[t] == if ended then DropData(h) else DropAlloc(h)
      ensures |trace| == |old(trace)| + 1 && CountedDown(|trace| - 1, t, h, ended)
      ensures Abs() == Step(old(Abs()), t, CALM)
    {
      DataLowers(t, h);
      ghost var before := Abs();
      ended := data == 1;
      data := data - 1;
      handles := handles[h := Stray(0, 1, t)];
      threads := threads[t := if ended then DropData(h) else DropAlloc(h)];
      last := if ended then By(t) else last;
      Record(before, t, CALM);
    }

    /** The decrement of the first counter, and what the others do before the rest. */
    method DecrementTurn(t: nat, h: nat, turns: seq<Turn>, g: nat, ghost goal: State) returns (ended: bool, next: nat)
      requires Valid() && !aborted && t < |threads| && threads[t] == Dropping(h)
      requires Calmly(turns) && g < |turns| && Finish(Abs(), t, turns, g) == goal
      modifies this
      ensures Valid() && old(trace) <= trace && |threads| == old(|threads|)
      ensures threads[t] == if ended then DropData(h) else DropAlloc(h)
      ensures next == g + 1 && Finish(Abs(), t, turns, next) == goal
      ensures CountedDown(old(|trace|), t, h, ended)
    {
      ended := DecrementData(t, h);
      ghost var soFar := trace;
      next := EndTurn(t, turns, g, old(Abs()), goal);
      Past(soFar, old(|trace|));
    }

    /** The body of `Arc::drop`, and the drop of the `Weak` inside it. */
    method GiveUp(t: nat, h: nat, turns: seq<Turn>, g: nat, ghost goal: State) returns (ended: bool)
      requires Valid() && !aborted && t < |threads| && threads[t] == Dropping(h)
      requires Calmly(turns) && g + 4 <= |turns| && Finish(Abs(), t, turns, g) == goal
      modifies this
      ensures Valid() && old(trace) <= trace && |threads| == old(|threads|) && Abs() == goal
      ensures !aborted ==> threads[t] == Idle && h < |handles| && handles[h] == Gone && (ended ==> dropped == 1)
      ensures CountedDown(old(|trace|), t, h, ended)
    {
      var next;
      ended, next := DecrementTurn(t, h, turns, g, goal);
      ghost var soFar := trace;
      if ended {
        DropBoth(t, h, turns, next, goal);
      } else if !aborted {
        DecrementAlloc(t, h, turns, next, goal);
      }
      Past(soFar, old(|trace|));
    }

    /** `Arc::drop`, and then the drop of the `Weak` inside it. */
    method DropArc(t: nat, h: nat, first: Gap, second: Gap, third: Gap, fourth: Gap) returns (ended: bool)
      requires Valid() && !aborted && t < |threads| && threads[t] == Idle
      requires Admits(handles, Loans(threads), Exclusive(h, Arc))
      modifies this
      ensures Valid() && old(trace) <= trace && |threads| == old(|threads|)
      ensures !aborted ==> threads[t] == Idle && h < |handles| && handles[h] == Gone && (ended ==> dropped == 1)
      ensures !aborted ==> exists j: nat :: old(|trace|) <= j && CountedDown(j, t, h, ended)
      ensures Abs() == Finish(old(Begun(Abs(), t, Op.Drop, h, first)), t,
                              [Turn(false, second), Turn(false, third), Turn(false, fourth), QUIET], 0)
    {
      BeginCall(t, Op.Drop, h, first);
      ended := false;
      if !aborted {
        var turns := [Turn(false, second), Turn(false, third), Turn(false, fourth), QUIET];
        ended := GiveUp(t, h, turns, 0, Finish(Abs(), t, turns, 0));
      }
    }

    /** `Weak::drop`. */
    method DropWeakHandle(t: nat, h: nat, first: Gap, second: Gap)
      requires Valid() && !aborted && t < |threads| && threads[t] == Idle
      requires Admits(handles, Loans(threads), Exclusive(h, Weak))
      modifies this
      ensures Valid() && old(trace) <= trace && |threads| == old(|threads|)
      ensures !aborted ==> threads[t] == Idle && h < |handles| && handles[h] == Gone
      ensures Abs() == Finish(old(Begun(Abs(), t, Op.DropWeak, h, first)), t, [Turn(false, second), QUIET], 0)
    {
      BeginCall(t, Op.DropWeak, h, first);
      if aborted {
        return;
      }
      var turns := [Turn(false, second), QUIET];
      DecrementAlloc(t, h, turns, 0, Finish(Abs(), t, turns, 0));
    }
  }
}
