/**
 The optimised `Arc` as code that updates the two counters in place. Thread `t` executes one call on
 handle `h`; before each of its atomic operations the other threads do what the next gap says, within the
 bound on the number of handles. A call comes in turns: its own step, and what the others do before its next
 one. A call with a loop that is still retrying when its turns are used up reports so.
 */
module ArcOptimisedCode {
  import opened Basics
  import opened Usize
  import opened Borrowing
  import opened ArcOptimised

  type Gap = seq<(nat, Choice)>

  const CALM := Choice(Deref, 0, false)

  /** A turn in which nothing fails and nobody else moves. */
  const QUIET := Turn(false, [])

  datatype Answer = Some(i: nat) | None | Unfinished

  lemma {:induction false} RunSnoc(s: State, tr: Gap, t: nat, c: Choice)
    requires AlwaysBounded(s, tr) && Bounded(Step(Run(s, tr), t, c))
    ensures Run(s, tr + [(t, c)]) == Step(Run(s, tr), t, c) && AlwaysBounded(s, tr + [(t, c)])
    decreases |tr|
  {
    var a := tr + [(t, c)];
    if tr == [] {
      assert a[1..] == [];
      assert AlwaysBounded(Step(s, t, c), []);
    } else {
      assert a[1..] == tr[1..] + [(t, c)];
      RunSnoc(Step(s, tr[0].0, tr[0].1), tr[1..], t, c);
    }
  }

  /** `spare` more handles, those that a call is about to create, fit below the bound. */
  predicate Roomy(s: State, spare: nat) {
    Arcs(s.handles) + Weaks(s.handles) + spare < MAX - 1
  }

  predicate Adds(pc: Pc) {
    pc.Cloning? || pc.WeakCloning? || pc.DownCas? || pc.UpCas?
  }

  predicate Removes(pc: Pc) {
    pc.Dropping? || pc.WeakDropping?
  }

  lemma OthersKeepHandles(s: State, u: nat, c: Choice)
    requires u < |s.threads| && !Adds(s.threads[u]) && !Removes(s.threads[u])
    ensures Step(s, u, c).handles == s.handles
  {
  }

  lemma AddsKeepHandles(s: State, u: nat, c: Choice)
    requires u < |s.threads| && Adds(s.threads[u])
    ensures s.handles <= Step(s, u, c).handles
  {
  }

  lemma AddsOne(s: State, u: nat, c: Choice)
    requires u < |s.threads| && Adds(s.threads[u])
    ensures var handles := Step(s, u, c).handles;
      Arcs(handles) + Weaks(handles) <= Arcs(s.handles) + Weaks(s.handles) + 1
  {
    var handles := Step(s, u, c).handles;
    if handles != s.handles {
      assert handles == s.handles + [handles[|s.handles|]];
      Added(s.handles, handles[|s.handles|]);
    }
  }

  /** A step stays within the bound if there is room for the handle that it may add. */
  lemma StepFits(s: State, t: nat, c: Choice)
    requires Inv(s) && Bounded(s) && t < |s.threads| && (Adds(s.threads[t]) ==> Roomy(s, 1))
    ensures Inv(Step(s, t, c)) && Bounded(Step(s, t, c))
  {
    StepInv(s, t, c);
    var pc := s.threads[t];
    if Adds(pc) {
      AddsOne(s, t, c);
    } else if Removes(pc) {
      if pc.h < |s.handles| { Changed(s.handles, pc.h, Gone); }
    } else {
      OthersKeepHandles(s, t, c);
    }
  }

  /** Nobody brings a handle back. */
  lemma GoneStays(s: State, u: nat, c: Choice, h: nat)
    requires h < |s.handles| && s.handles[h] == Gone
    ensures h < |Step(s, u, c).handles| && Step(s, u, c).handles[h] == Gone
  {
    if u < |s.threads| {
      if Adds(s.threads[u]) {
        AddsKeepHandles(s, u, c);
      } else if !Removes(s.threads[u]) {
        OthersKeepHandles(s, u, c);
      }
    }
  }

  lemma ThreadsStay(s: State, u: nat, c: Choice, t: nat)
    requires t < |s.threads| && u != t
    ensures |Step(s, u, c).threads| == |s.threads| && Step(s, u, c).threads[t] == s.threads[t]
  {
    if u < |s.threads| && !s.aborted {
      match s.threads[u]
      case Idle => assert Step(s, u, c) == Begin(s, u, c.op, c.h);
      case Cloning(_) => assert Step(s, u, c) == CloneStep(s, u);
      case DownCas(h, n) => assert Step(s, u, c) == DownCasStep(s, u, h, n, c.spurious);
      case WeakCloning(_) => assert Step(s, u, c) == WeakCloneStep(s, u);
      case UpCas(h, n) => assert Step(s, u, c) == UpCasStep(s, u, h, n, c.spurious);
      case GmCas(h) => assert Step(s, u, c) == GmCasStep(s, u, h, c.spurious);
      case GmStore(h, unique) => assert Step(s, u, c) == GmStoreStep(s, u, h, unique);
      case Dropping(h) => assert h < |s.handles| ==> Step(s, u, c) == DropStep(s, u, h);
      case WeakDropping(h) =>
        assert Step(s, u, c).threads == s.threads || Step(s, u, c).threads == DropAllocStep(s, u).threads;
      case _ =>
    }
  }

  // ----- What a call does in its turns -----

  /** The loops of upgrade and downgrade. */
  predicate Repeats(pc: Pc) {
    pc.UpLoad? || pc.UpCas? || pc.DownLoad? || pc.DownCas?
  }

  /** Whether the own step of the thread fails spuriously, and what the others do before its next one. */
  datatype Turn = Turn(spurious: bool, others: Gap)

  /** The others' steps of a gap, as far as there stays room for `spare` handles. */
  function Meanwhile(s: State, t: nat, gap: Gap, spare: nat): State
    decreases |gap|
  {
    if gap == [] then s else
    var s' := Step(s, gap[0].0, gap[0].1);
    Meanwhile(if gap[0].0 != t && Roomy(s', spare) then s' else s, t, gap[1..], spare)
  }

  /** How many handles the rest of the call may make. */
  function Spare(pc: Pc): nat {
    if Adds(pc) || Repeats(pc) then 1 else 0
  }

  /** What the others do between two steps of the call of thread `t`. */
  function Pause(s: State, t: nat, gap: Gap): State {
    if t < |s.threads| then Meanwhile(s, t, gap, Spare(s.threads[t])) else s
  }

  /** The call has returned, or the process is no more. */
  predicate Done(s: State, t: nat) {
    s.aborted || (t < |s.threads| && (s.threads[t] == Idle || s.threads[t].Mutating?))
  }

  function OwnStep(s: State, t: nat, turn: Turn): State {
    Step(s, t, Choice(Deref, 0, turn.spurious))
  }

  /** Thread `t` takes its turns until its call is over or the process is, or as many as there are. */
  function Finish(s: State, t: nat, turns: seq<Turn>, from: nat): State
    decreases |turns| - from
  {
    if from >= |turns| || Done(s, t) then s else
    var s1 := OwnStep(s, t, turns[from]);
    if Done(s1, t) then s1 else Finish(Pause(s1, t, turns[from].others), t, turns, from + 1)
  }

  /** The turns of a call without loop, in which nothing can fail. */
  predicate Calmly(turns: seq<Turn>) {
    forall turn | turn in turns :: !turn.spurious
  }

  /** The call has begun: its handle is borrowed. */
  function Begun(s: State, t: nat, op: Op, h: nat, first: Gap): State {
    Pause(Step(s, t, Choice(op, h, false)), t, first)
  }

  /**
   The own step ends the call: an upgrade reads that no `Arc` is left, or an exchange that does not fail
   spuriously finds what the thread has read.
   */
  predicate Settles(s: State, t: nat, turn: Turn) {
    && !s.aborted && t < |s.threads|
    && match s.threads[t]
       case UpLoad(_) => s.data == 0
       case UpCas(_, n) => s.data == 0 || (s.data == n && !turn.spurious)
       case DownCas(_, n) => s.alloc == n && !turn.spurious
       case _ => false
  }

  /** The thread is in a loop of its call and has room for the handle that it may make. */
  ghost predicate Ready(s: State, t: nat) {
    Inv(s) && Roomy(s, 1) && t < |s.threads| && Repeats(s.threads[t])
  }

  /** Where the own step of a loop leads. */
  lemma StepGoes(s: State, t: nat, turn: Turn)
    requires t < |s.threads| && !s.aborted && Repeats(s.threads[t]) && (s.threads[t].UpCas? ==> s.threads[t].n > 0)
    ensures var s1 := OwnStep(s, t, turn);
      && !s1.aborted && |s1.threads| == |s.threads|
      && (Done(s1, t) <==> Settles(s, t, turn))
      && (!Done(s1, t) ==> (Repeats(s1.threads[t]) || s1.threads[t].Panicked?) && s1.handles == s.handles)
  {
    match s.threads[t]
    case UpLoad(_) =>
    case UpCas(h, n) => assert OwnStep(s, t, turn) == UpCasStep(s, t, h, n, turn.spurious);
    case DownLoad(_) =>
    case DownCas(h, n) => assert OwnStep(s, t, turn) == DownCasStep(s, t, h, n, turn.spurious);
  }

  /** The own step ends the call as it should, or leaves the thread in its loop. */
  lemma StepSettles(s: State, t: nat, turn: Turn)
    requires Ready(s, t) && !s.aborted
    ensures var s1 := OwnStep(s, t, turn);
      && !s1.aborted
      && (Done(s1, t) <==> Settles(s, t, turn))
      && (!Done(s1, t) ==> Ready(s1, t))
  {
    assert PcOk(s, t);
    StepGoes(s, t, turn);
    StepInv(s, t, Choice(Deref, 0, turn.spurious));
    assert PcOk(OwnStep(s, t, turn), t);
  }

  lemma {:induction false} MeanwhileReady(s: State, t: nat, gap: Gap)
    requires Ready(s, t)
    ensures Ready(Meanwhile(s, t, gap, 1), t) && Meanwhile(s, t, gap, 1) == Pause(s, t, gap)
    decreases |gap|
  {
    if gap == [] {
    } else {
      var s' := Step(s, gap[0].0, gap[0].1);
      if gap[0].0 != t && Roomy(s', 1) {
        StepInv(s, gap[0].0, gap[0].1);
        ThreadsStay(s, gap[0].0, gap[0].1, t);
        MeanwhileReady(s', t, gap[1..]);
      } else {
        MeanwhileReady(s, t, gap[1..]);
      }
    }
  }

  /** Turn `i` of the call, if it comes to that, ends it. */
  ghost predicate SettlesAt(s: State, t: nat, turns: seq<Turn>, from: nat, i: nat) {
    from <= i < |turns| && Settles(Finish(s, t, turns[..i], from), t, turns[i])
  }

  /** A turn that does not end the call only moves its start. */
  lemma SettlesLater(s: State, t: nat, turns: seq<Turn>, from: nat, i: nat)
    requires from < |turns| && !Done(s, t) && !Done(OwnStep(s, t, turns[from]), t) && i != from
    ensures var s2 := Pause(OwnStep(s, t, turns[from]), t, turns[from].others);
      SettlesAt(s, t, turns, from, i) <==> SettlesAt(s2, t, turns, from + 1, i)
  {
    if from < i < |turns| { assert turns[..i][from] == turns[from]; }
  }

  /** The call ends within its turns if and only if one of its own steps settles it. */
  ghost predicate EndsWhenSettled(s: State, t: nat, turns: seq<Turn>, from: nat) {
    var s' := Finish(s, t, turns, from);
    Done(s', t) && !s'.aborted <==> exists i: nat :: SettlesAt(s, t, turns, from, i)
  }

  lemma EndsLater(s: State, t: nat, turns: seq<Turn>, from: nat, next: nat)
    requires from < |turns| && next == from + 1 && !Done(s, t) && !Done(OwnStep(s, t, turns[from]), t)
    requires !Settles(s, t, turns[from])
    requires EndsWhenSettled(Pause(OwnStep(s, t, turns[from]), t, turns[from].others), t, turns, next)
    ensures EndsWhenSettled(s, t, turns, from)
  {
    var s2 := Pause(OwnStep(s, t, turns[from]), t, turns[from].others);
    assert !SettlesAt(s, t, turns, from, from);
    if i: nat :| SettlesAt(s, t, turns, from, i) {
      SettlesLater(s, t, turns, from, i);
    }
    if i: nat :| SettlesAt(s2, t, turns, next, i) {
      SettlesLater(s, t, turns, from, i);
    }
  }

  lemma EndsNow(s: State, t: nat, turns: seq<Turn>, from: nat)
    requires from >= |turns| || s.aborted || (Settles(s, t, turns[from]) && Done(OwnStep(s, t, turns[from]), t))
    requires from < |turns| && !s.aborted ==> !OwnStep(s, t, turns[from]).aborted
    requires !s.aborted ==> !Done(s, t)
    ensures EndsWhenSettled(s, t, turns, from)
  {
    if from < |turns| && !s.aborted {
      assert SettlesAt(s, t, turns, from, from);
    }
  }

  lemma {:induction false} EveryCallEnds(s: State, t: nat, turns: seq<Turn>, from: nat)
    requires Ready(s, t)
    ensures EndsWhenSettled(s, t, turns, from)
    decreases |turns| - from
  {
    if from >= |turns| || s.aborted {
      EndsNow(s, t, turns, from);
    } else {
      StepSettles(s, t, turns[from]);
      if Settles(s, t, turns[from]) {
        EndsNow(s, t, turns, from);
      } else {
        MeanwhileReady(OwnStep(s, t, turns[from]), t, turns[from].others);
        EveryCallEnds(Pause(OwnStep(s, t, turns[from]), t, turns[from].others), t, turns, from + 1);
        EndsLater(s, t, turns, from, from + 1);
      }
    }
  }

  class Block {
    const n: nat
    var data: nat
    var alloc: nat
    var dropped: nat
    var freed: nat
    var bad: bool
    var aborted: bool
    var locker: Role
    var last: Role
    var freer: Role
    var handles: seq<Handle>
    var threads: seq<Pc>
    ghost var trace: Gap

    function Abs(): State
      reads this
    {
      State(data, alloc, dropped, freed, bad, aborted, locker, last, freer, handles, threads)
    }

    /** The object went through a bounded run of the state machine. */
    ghost predicate Valid()
      reads this
    {
      AlwaysBounded(Init(n), trace) && Abs() == Run(Init(n), trace)
    }

    /** The state after the first `j` steps. */
    ghost function At(j: nat): State
      requires j <= |trace|
      reads this
    {
      Run(Init(n), trace[..j])
    }

    /** Step `j` is thread `t`'s decrement for `h`, and it takes the first count to 0 if and only if `ended`. */
    ghost predicate CountedDown(j: nat, t: nat, h: nat, ended: bool)
      reads this
    {
      && j < |trace| && trace[j].0 == t
      && t < |At(j).threads| && At(j).threads[t] == Dropping(h) && (ended <==> At(j).data == 1)
    }

    /** What has happened stays so. */
    lemma Past(soFar: Gap, j: nat)
      requires soFar <= trace && j < |soFar|
      ensures At(j) == Run(Init(n), soFar[..j]) && trace[j] == soFar[j]
    {
      assert trace[..j] == soFar[..j];
    }

    /** Step `j` is thread `t`'s, and makes handle `i`. */
    ghost predicate Created(j: nat, t: nat, i: nat, kind: Handle)
      reads this
    {
      && j < |trace| && trace[j].0 == t
      && |At(j).handles| == i && At(j + 1).handles == At(j).handles + [kind]
    }

    /** `Arc::new`. */
    constructor (n: nat)
      ensures Valid() && this.n == n && Abs() == Init(n)
    {
      this.n := n;
      data, alloc, dropped, freed, bad, aborted := 1, 1, 0, 0, false, false;
      locker, last, freer := Nobody, Nobody, Nobody;
      handles, threads := [Arc], Init(n).threads;
      trace := [];
      new;
      assert handles[1..] == [];
    }

    lemma Known()
      requires Valid()
      ensures Inv(Abs()) && Bounded(Abs())
    {
      InitInv(n);
      RunInv(Init(n), trace);
    }

    ghost method Record(before: State, t: nat, c: Choice)
      requires AlwaysBounded(Init(n), trace) && before == Run(Init(n), trace)
      requires Abs() == Step(before, t, c) && Bounded(Abs())
      modifies this`trace
      ensures Valid() && trace == old(trace) + [(t, c)] && At(|trace| - 1) == before
    {
      RunSnoc(Init(n), trace, t, c);
      assert (trace + [(t, c)])[..|trace|] == trace;
      trace := trace + [(t, c)];
    }

    method Restore(s: State)
      modifies this
      ensures Abs() == s && trace == old(trace)
    {
      data, alloc, dropped, freed, bad, aborted := s.data, s.alloc, s.dropped, s.freed, s.bad, s.aborted;
      locker, last, freer, handles, threads := s.locker, s.last, s.freer, s.handles, s.threads;
    }

    /** What the other threads do meanwhile. */
    method Others(t: nat, gap: Gap, spare: nat)
      requires Valid() && t < |threads| && (spare == 0 || Roomy(Abs(), spare))
      modifies this
      ensures Valid() && old(trace) <= trace && Roomy(Abs(), spare)
      ensures |threads| == old(|threads|) && threads[t] == old(threads[t])
      ensures forall h: nat | h < old(|handles|) && old(handles)[h] == Gone :: h < |handles| && handles[h] == Gone
      ensures Abs() == Meanwhile(old(Abs()), t, gap, spare)
    {
      Known();
      for i := 0 to |gap|
        invariant Valid() && old(trace) <= trace && Roomy(Abs(), spare)
        invariant |threads| == old(|threads|) && threads[t] == old(threads[t])
        invariant forall h: nat | h < old(|handles|) && old(handles)[h] == Gone :: h < |handles| && handles[h] == Gone
        invariant Meanwhile(Abs(), t, gap[i..], spare) == Meanwhile(old(Abs()), t, gap, spare)
      {
        assert gap[i..][1..] == gap[i + 1..];
        var s := Step(Abs(), gap[i].0, gap[i].1);
        if gap[i].0 != t && Roomy(s, spare) {
          ghost var before := Abs();
          Known();
          StepInv(before, gap[i].0, gap[i].1);
          ThreadsStay(before, gap[i].0, gap[i].1, t);
          forall h: nat | h < |handles| && handles[h] == Gone
            ensures h < |s.handles| && s.handles[h] == Gone
          {
            GoneStays(before, gap[i].0, gap[i].1, h);
          }
          Restore(s);
          Record(before, gap[i].0, gap[i].1);
        }
      }
    }

    /** The call borrows its handle. */
    method Borrow(t: nat, op: Op, h: nat)
      requires Valid() && !aborted && t < |threads| && threads[t] == Idle
      requires Admits(handles, Loans(threads), LoanOf(First(op, h)))
      modifies this
      ensures Valid() && old(trace) < trace && !aborted && handles == old(handles)
      ensures |threads| == old(|threads|) && threads[t] == First(op, h)
      ensures Abs() == Step(old(Abs()), t, Choice(op, h, false))
    {
      ghost var before := Abs();
      Known();
      threads := threads[t := First(op, h)];
      Record(before, t, Choice(op, h, false));
    }

    /** The call borrows its handle, and others do `first` before its first step. */
    method BeginCall(t: nat, op: Op, h: nat, first: Gap)
      requires Valid() && !aborted && t < |threads| && threads[t] == Idle
      requires Spare(First(op, h)) == 0 || Roomy(Abs(), 1)
      requires Admits(handles, Loans(threads), LoanOf(First(op, h)))
      modifies this
      ensures Valid() && old(trace) < trace && |threads| == old(|threads|) && Roomy(Abs(), Spare(First(op, h)))
      ensures threads[t] == First(op, h) && Abs() == old(Begun(Abs(), t, op, h, first))
    {
      Borrow(t, op, h);
      Others(t, first, Spare(First(op, h)));
    }

    lemma CloneRaises(t: nat, h: nat)
      requires Valid() && Roomy(Abs(), 1) && !aborted && t < |threads| && threads[t] == Cloning(h)
      ensures dropped == 0 && data < MAX
      ensures var ok := data <= MAX / 2; var s' := Step(Abs(), t, CALM);
        && Bounded(s')
        && s' == Abs().(data := data + 1, handles := handles + [if ok then Arc else Stray(1, 0, t)],
                        threads := threads[t := if ok then Idle else Aborting])
    {
      Known();
      Safe(Abs(), t);
      StepFits(Abs(), t, CALM);
    }

    /** `data_ref_count.fetch_add(1)`. */
    method Increment(t: nat, h: nat) returns (ok: bool)
      requires Valid() && Roomy(Abs(), 1) && !aborted && t < |threads| && threads[t] == Cloning(h)
      modifies this
      ensures Valid() && old(trace) <= trace && !aborted && |threads| == old(|threads|)
      ensures ok ==> handles == old(handles) + [Arc] && dropped == 0 && threads[t] == Idle
      ensures |trace| == |old(trace)| + 1 && (ok ==> Created(|trace| - 1, t, |handles| - 1, Arc))
      ensures !ok ==> threads[t] == Aborting
      ensures data == old(data) + 1 && (ok <==> old(data) <= MAX / 2)
      ensures Abs() == Step(old(Abs()), t, CALM)
    {
      CloneRaises(t, h);
      ghost var before := Abs();
      ok := data <= MAX / 2;
      data := data + 1;
      handles := handles + [if ok then Arc else Stray(1, 0, t)];
      threads := threads[t := if ok then Idle else Aborting];
      Record(before, t, CALM);
      assert trace[..|trace|] == trace;
    }

    /** The own step of turn `g` did not end the call; now the others take theirs. */
    method EndTurn(t: nat, turns: seq<Turn>, g: nat, ghost before: State, ghost goal: State) returns (next: nat)
      requires Valid() && t < |threads| && g < |turns| && !Done(before, t) && !Done(Abs(), t)
      requires Spare(threads[t]) == 0 || Roomy(Abs(), Spare(threads[t]))
      requires Abs() == OwnStep(before, t, turns[g]) && Finish(before, t, turns, g) == goal
      modifies this
      ensures Valid() && old(trace) <= trace && |threads| == old(|threads|) && threads[t] == old(threads[t])
      ensures Roomy(Abs(), Spare(threads[t]))
      ensures forall h: nat | h < old(|handles|) && old(handles)[h] == Gone :: h < |handles| && handles[h] == Gone
      ensures next == g + 1 && Finish(Abs(), t, turns, next) == goal
    {
      Others(t, turns[g].others, Spare(threads[t]));
      next := g + 1;
    }

    /** A call with a loop borrows its handle; what decides whether it ends. */
    method BeginLoop(t: nat, op: Op, h: nat, first: Gap, ghost turns: seq<Turn>)
      requires Valid() && Roomy(Abs(), 1) && !aborted && t < |threads| && threads[t] == Idle
      requires Admits(handles, Loans(threads), LoanOf(First(op, h))) && Repeats(First(op, h))
      modifies this
      ensures Valid() && old(trace) < trace && |threads| == old(|threads|) && Roomy(Abs(), 1)
      ensures threads[t] == First(op, h) && Abs() == Begun(old(Abs()), t, op, h, first)
      ensures EndsWhenSettled(Abs(), t, turns, 0)
    {
      BeginCall(t, op, h, first);
      Known();
      EveryCallEnds(Abs(), t, turns, 0);
    }

    /** `std::process::abort()`. */
    method Abort(t: nat)
      requires Valid() && !aborted && t < |threads| && threads[t] == Aborting
      modifies this
      ensures Valid() && old(trace) <= trace && aborted && |threads| == old(|threads|)
      ensures Abs() == Step(old(Abs()), t, CALM)
    {
      ghost var before := Abs();
      Known();
      aborted := true;
      Record(before, t, CALM);
    }

    /** `Arc::clone`: a new `Arc`, or the process aborts. */
    method Clone(t: nat, h: nat, gap: Gap) returns (r: Answer)
      requires Valid() && Roomy(Abs(), 1) && !aborted && t < |threads| && threads[t] == Idle
      requires Admits(handles, Loans(threads), Shared(h, Arc))
      modifies this
      ensures Valid() && old(trace) <= trace && |threads| == old(|threads|)
      ensures r.Some? ==> r.i < |handles| && handles[r.i] == Arc && dropped == 0 && threads[t] == Idle
      ensures r.Some? ==> data <= MAX / 2 + 1
      ensures r.Some? ==> exists j: nat :: old(|trace|) <= j && Created(j, t, r.i, Arc)
      ensures !r.Some? ==> aborted
      ensures Abs() == Finish(old(Begun(Abs(), t, Op.Clone, h, gap)), t, [QUIET, QUIET], 0)
    {
      BeginCall(t, Op.Clone, h, gap);
      if aborted {
        return Unfinished;
      }
      var ok := Increment(t, h);
      if !ok {
        Abort(t);
        return Unfinished;
      }
      r := Some(|handles| - 1);
    }

    /** There was an `Arc` after the first `j` steps if and only if `some`. */
    ghost predicate HadArc(j: nat, some: bool)
      reads this
    {
      j <= |trace| && (some <==> Arcs(At(j).handles) > 0)
    }

    /** The load of upgrade. */
    method UpgradeLoad(t: nat, h: nat, ghost turn: Turn) returns (m: nat)
      requires Valid() && Roomy(Abs(), 1) && !aborted && t < |threads| && threads[t] == UpLoad(h)
      modifies this
      ensures Valid() && old(trace) < trace && Roomy(Abs(), 1) && !aborted && |threads| == old(|threads|)
      ensures m == data && threads[t] == UpDecide(h, m) && m < MAX
      ensures HadArc(|trace| - 1, m > 0) && Abs() == OwnStep(old(Abs()), t, turn)
    {
      ghost var before := Abs();
      Known();
      Safe(before, t);
      m := data;
      threads := threads[t := UpDecide(h, m)];
      StepFits(before, t, Choice(Deref, 0, turn.spurious));
      Record(before, t, Choice(Deref, 0, turn.spurious));
    }

    lemma UpgradeMoves(t: nat, h: nat, m: nat, spurious: bool)
      requires Valid() && Roomy(Abs(), 1) && !aborted && t < |threads| && threads[t] == UpCas(h, m)
      ensures m > 0 && Arcs(handles) == data < MAX && (data > 0 ==> dropped == 0)
      ensures var s' := Step(Abs(), t, Choice(Deref, 0, spurious));
        && Bounded(s')
        && s' == if data == m && !spurious
                 then Abs().(data := m + 1, handles := handles + [Arc], threads := threads[t := Idle])
                 else Abs().(threads := threads[t := UpDecide(h, data)])
    {
      Known();
      assert PcOk(Abs(), t);
      Safe(Abs(), t);
      StepFits(Abs(), t, Choice(Deref, 0, spurious));
    }

    /** `data_ref_count.compare_exchange_weak(m, m + 1)`. */
    method UpgradeExchange(t: nat, h: nat, m: nat, turn: Turn) returns (ok: bool, seen: nat)
      requires Valid() && Roomy(Abs(), 1) && !aborted && t < |threads| && threads[t] == UpCas(h, m)
      modifies this
      ensures Valid() && old(trace) < trace && |trace| == |old(trace)| + 1 && !aborted && |threads| == old(|threads|)
      ensures ok ==> handles == old(handles) + [Arc] && threads[t] == Idle && dropped == 0 && HadArc(|trace| - 1, true)
      ensures ok ==> Created(|trace| - 1, t, |handles| - 1, Arc)
      ensures !ok ==> Roomy(Abs(), 1) && seen == data < MAX && threads[t] == UpDecide(h, seen)
      ensures !ok ==> HadArc(|trace| - 1, seen > 0)
      ensures Abs() == OwnStep(old(Abs()), t, turn)
    {
      UpgradeMoves(t, h, m, turn.spurious);
      ghost var before := Abs();
      seen := data;
      ok := data == m && !turn.spurious;
      if ok {
        data := m + 1;
        handles := handles + [Arc];
        threads := threads[t := Idle];
      } else {
        threads := threads[t := UpDecide(h, seen)];
      }
      Record(before, t, Choice(Deref, 0, turn.spurious));
      assert trace[..|trace|] == trace;
    }

    /** The answer of upgrade that the call has come to by step `j`. */
    ghost predicate Answered(j: nat, t: nat, r: Answer)
      reads this
    {
      HadArc(j, r.Some?) && (r.Some? ==> Created(j, t, r.i, Arc))
    }

    /** One pass of the loop of upgrade. */
    method UpgradeOnce(t: nat, h: nat, m: nat, turns: seq<Turn>, g: nat, ghost goal: State)
        returns (r: Answer, seen: nat, next: nat)
      requires Valid() && Roomy(Abs(), 1) && !aborted && t < |threads| && threads[t] == UpCas(h, m)
      requires g < |turns| && Finish(Abs(), t, turns, g) == goal
      modifies this
      ensures Valid() && old(trace) < trace && |threads| == old(|threads|)
      ensures r.Some? ==> r.i < |handles| && handles[r.i] == Arc && dropped == 0
      ensures r.None? ==> data == 0
      ensures !r.Unfinished? ==> threads[t] == Idle && !aborted && Abs() == goal && Answered(|trace| - 1, t, r)
      ensures r.Unfinished? ==>
        Roomy(Abs(), 1) && threads[t] == UpCas(h, seen) && next == g + 1 && Finish(Abs(), t, turns, next) == goal
    {
      var ok;
      next := g;
      ok, seen := UpgradeExchange(t, h, m, turns[g]);
      if ok {
        r := Some(|handles| - 1);
      } else if seen == 0 {
        r := None;
      } else {
        next := EndTurn(t, turns, g, old(Abs()), goal);
        r := Unfinished;
      }
    }

    /** The loop of `Weak::upgrade`. */
    method UpgradeLoop(t: nat, h: nat, turns: seq<Turn>, from: nat, m: nat, ghost goal: State) returns (r: Answer)
      requires Valid() && Roomy(Abs(), 1) && t < |threads| && threads[t] == UpCas(h, m)
      requires Finish(Abs(), t, turns, from) == goal
      modifies this
      ensures Valid() && old(trace) <= trace && |threads| == old(|threads|) && Abs() == goal
      ensures r.Some? ==> r.i < |handles| && handles[r.i] == Arc && dropped == 0 && threads[t] == Idle
      ensures r.None? ==> data == 0 && threads[t] == Idle
      ensures r.Unfinished? <==> aborted || !Done(Abs(), t)
      ensures !r.Unfinished? ==> exists j: nat :: old(|trace|) <= j && Answered(j, t, r)
    {
      var g: nat := from;
      var n: nat := m;
      r := Unfinished;
      while g < |turns| && !aborted
        invariant Valid() && old(trace) <= trace && |threads| == old(|threads|) && Roomy(Abs(), 1)
        invariant threads[t] == UpCas(h, n) && Finish(Abs(), t, turns, g) == goal && r.Unfinished?
        decreases |turns| - g
      {
        r, n, g := UpgradeOnce(t, h, n, turns, g, goal);
        if !r.Unfinished? {
          return;
        }
      }
    }

    /** `Weak::upgrade`: the answer is right at a moment of the call, and comes as soon as a step settles it. */
    method Upgrade(t: nat, h: nat, first: Gap, turns: seq<Turn>) returns (r: Answer)
      requires Valid() && Roomy(Abs(), 1) && !aborted && t < |threads| && threads[t] == Idle
      requires Admits(handles, Loans(threads), Shared(h, Weak))
      modifies this
      ensures Valid() && old(trace) <= trace && |threads| == old(|threads|)
      ensures r.Some? ==> r.i < |handles| && handles[r.i] == Arc && dropped == 0 && threads[t] == Idle
      ensures r.None? ==> data == 0 && threads[t] == Idle
      ensures !r.Unfinished? ==> exists j: nat :: old(|trace|) <= j && Answered(j, t, r)
      ensures Abs() == Finish(old(Begun(Abs(), t, Op.Upgrade, h, first)), t, turns, 0)
      ensures !r.Unfinished? <==> exists i: nat :: SettlesAt(old(Begun(Abs(), t, Op.Upgrade, h, first)), t, turns, 0, i)
    {
      BeginLoop(t, Op.Upgrade, h, first, turns);
      ghost var goal := Finish(Abs(), t, turns, 0);
      if aborted || turns == [] {
        return Unfinished;
      }
      ghost var before := Abs();
      var m := UpgradeLoad(t, h, turns[0]);
      if m == 0 {
        r := None;
        assert Answered(|trace| - 1, t, r);
        return;
      }
      var g := EndTurn(t, turns, 0, before, goal);
      r := UpgradeLoop(t, h, turns, g, m, goal);
    }

    /** A value of the second counter on which the assert of downgrade does not fail. */
    static predicate Sane(m: nat) {
      m == MAX || m < MAX - 1
    }

    method DowngradeLoad(t: nat, h: nat, ghost turn: Turn) returns (m: nat)
      requires Valid() && Roomy(Abs(), 1) && !aborted && t < |threads| && threads[t] == DownLoad(h)
      modifies this
      ensures Valid() && old(trace) <= trace && Roomy(Abs(), 1) && !aborted && |threads| == old(|threads|)
      ensures m == alloc && threads[t] == DownDecide(h, m) && Sane(m)
      ensures Abs() == OwnStep(old(Abs()), t, turn)
    {
      ghost var before := Abs();
      Known();
      Safe(before, t);
      m := alloc;
      threads := threads[t := DownDecide(h, m)];
      StepFits(before, t, Choice(Deref, 0, turn.spurious));
      Record(before, t, Choice(Deref, 0, turn.spurious));
    }

    lemma DowngradeMoves(t: nat, h: nat, m: nat, spurious: bool)
      requires Valid() && Roomy(Abs(), 1) && !aborted && t < |threads| && threads[t] == DownCas(h, m)
      ensures m < MAX - 1 && Sane(alloc)
      ensures var s' := Step(Abs(), t, Choice(Deref, 0, spurious));
        && Bounded(s')
        && s' == if alloc == m && !spurious
                 then Abs().(alloc := m + 1, handles := handles + [Weak], threads := threads[t := Idle])
                 else Abs().(threads := threads[t := DownDecide(h, alloc)])
    {
      Known();
      assert PcOk(Abs(), t);
      Safe(Abs(), t);
      StepFits(Abs(), t, Choice(Deref, 0, spurious));
    }

    /** `alloc_ref_count.compare_exchange_weak(m, m + 1)`. */
    method DowngradeExchange(t: nat, h: nat, m: nat, turn: Turn) returns (ok: bool, seen: nat)
      requires Valid() && Roomy(Abs(), 1) && !aborted && t < |threads| && threads[t] == DownCas(h, m)
      modifies this
      ensures Valid() && old(trace) <= trace && |trace| == |old(trace)| + 1 && !aborted && |threads| == old(|threads|)
      ensures ok ==> handles == old(handles) + [Weak] && alloc == m + 1 < MAX && threads[t] == Idle
      ensures ok ==> Created(|trace| - 1, t, |handles| - 1, Weak)
      ensures !ok ==> Roomy(Abs(), 1) && seen == alloc && Sane(seen) && threads[t] == DownDecide(h, seen)
      ensures Abs() == OwnStep(old(Abs()), t, turn)
    {
      DowngradeMoves(t, h, m, turn.spurious);
      ghost var before := Abs();
      seen := alloc;
      ok := alloc == m && !turn.spurious;
      if ok {
        alloc := m + 1;
        handles := handles + [Weak];
        threads := threads[t := Idle];
      } else {
        threads := threads[t := DownDecide(h, seen)];
      }
      Record(before, t, Choice(Deref, 0, turn.spurious));
      assert trace[..|trace|] == trace;
    }

    /** One pass of the loop of downgrade. */
    method DowngradeOnce(t: nat, h: nat, m: nat, turns: seq<Turn>, g: nat, ghost goal: State)
        returns (ok: bool, seen: nat, next: nat)
      requires Valid() && Roomy(Abs(), 1) && !aborted && t < |threads| && threads[t] == DownDecide(h, m) && Sane(m)
      requires g < |turns| && Finish(Abs(), t, turns, g) == goal
      modifies this
      ensures Valid() && old(trace) <= trace && |threads| == old(|threads|)
      ensures ok ==> handles != [] && handles[|handles| - 1] == Weak && alloc != MAX && threads[t] == Idle && !aborted
      ensures ok ==> Abs() == goal && |trace| > |old(trace)| && Created(|trace| - 1, t, |handles| - 1, Weak)
      ensures !ok ==> Roomy(Abs(), 1) && threads[t] == DownDecide(h, seen) && Sane(seen)
      ensures !ok ==> next == g + 1 && Finish(Abs(), t, turns, next) == goal
    {
      ok, next := false, g;
      if m == MAX {
        seen := DowngradeLoad(t, h, turns[g]);
      } else {
        ok, seen := DowngradeExchange(t, h, m, turns[g]);
      }
      if !ok {
        next := EndTurn(t, turns, g, old(Abs()), goal);
      }
    }

    /** The loop of `Arc::downgrade`. */
    method DowngradeLoop(t: nat, h: nat, turns: seq<Turn>, ghost goal: State) returns (r: Answer)
      requires Valid() && Roomy(Abs(), 1) && t < |threads| && threads[t] == DownLoad(h)
      requires Finish(Abs(), t, turns, 0) == goal
      modifies this
      ensures Valid() && old(trace) <= trace && |threads| == old(|threads|) && Abs() == goal
      ensures r.Some? ==> r.i < |handles| && handles[r.i] == Weak && alloc != MAX && threads[t] == Idle
      ensures r.Some? ==> exists j: nat :: old(|trace|) <= j && Created(j, t, r.i, Weak)
      ensures (r.Unfinished? <==> aborted || !Done(Abs(), t)) && !r.None?
    {
      var g: nat := 0;
      var m: nat := MAX;
      while g < |turns| && !aborted
        invariant Valid() && old(trace) <= trace && |threads| == old(|threads|) && Roomy(Abs(), 1)
        invariant threads[t] == DownDecide(h, m) && Sane(m) && Finish(Abs(), t, turns, g) == goal
        decreases |turns| - g
      {
        var ok;
        ok, m, g := DowngradeOnce(t, h, m, turns, g, goal);
        if ok {
          return Some(|handles| - 1);
        }
      }
      r := Unfinished;
    }

    /** `Arc::downgrade`: waits while the second counter is locked. */
    method Downgrade(t: nat, h: nat, first: Gap, turns: seq<Turn>) returns (r: Answer)
      requires Valid() && Roomy(Abs(), 1) && !aborted && t < |threads| && threads[t] == Idle
      requires Admits(handles, Loans(threads), Shared(h, Arc))
      modifies this
      ensures Valid() && old(trace) <= trace && |threads| == old(|threads|)
      ensures r.Some? ==> r.i < |handles| && handles[r.i] == Weak && alloc != MAX && threads[t] == Idle
      ensures r.Some? ==> exists j: nat :: old(|trace|) <= j && Created(j, t, r.i, Weak)
      ensures r.Some? || r.Unfinished?
      ensures Abs() == Finish(old(Begun(Abs(), t, Op.Downgrade, h, first)), t, turns, 0)
      ensures r.Some? <==> exists i: nat :: SettlesAt(old(Begun(Abs(), t, Op.Downgrade, h, first)), t, turns, 0, i)
    {
      BeginLoop(t, Op.Downgrade, h, first, turns);
      r := DowngradeLoop(t, h, turns, Finish(Abs(), t, turns, 0));
    }

    /** The caller's `Arc` was the only handle after the first `j` steps if and only if `some`. */
    ghost predicate WasOnly(j: nat, some: bool)
      reads this
    {
      j <= |trace| && (some <==> OnlyHandle(At(j)))
    }

    /** The Relaxed load of the first counter, which may be stale. */
    method GetMutLoad(t: nat, h: nat, stale: bool) returns (unique: bool)
      requires Valid() && !aborted && t < |threads| && threads[t] == GmLoad(h)
      modifies this
      ensures Valid() && old(trace) < trace && |trace| == |old(trace)| + 1 && !aborted && |threads| == old(|threads|)
      ensures threads[t] == GmStore(h, unique) && (stale ==> !unique) && (!stale ==> WasOnly(|trace| - 1, unique))
      ensures Abs() == Step(old(Abs()), t, Choice(Deref, 0, stale))
    {
      ghost var before := Abs();
      Known();
      assert PcOk(before, t);
      Safe(before, t);
      unique := data == 1 && !stale;
      threads := threads[t := GmStore(h, unique)];
      StepFits(before, t, Choice(Deref, 0, stale));
      Record(before, t, Choice(Deref, 0, stale));
    }

    /** `alloc_ref_count.store(1)`. */
    method GetMutUnlock(t: nat, h: nat, unique: bool)
      requires Valid() && !aborted && t < |threads| && threads[t] == GmStore(h, unique)
      modifies this
      ensures Valid() && old(trace) <= trace && !aborted && |threads| == old(|threads|)
      ensures threads[t] == if unique then Mutating(h) else Idle
      ensures unique ==> OnlyHandle(Abs()) && dropped == 0
      ensures Abs() == Step(old(Abs()), t, CALM)
    {
      ghost var before := Abs();
      Known();
      assert PcOk(before, t);
      Safe(before, t);
      alloc := 1;
      locker := Nobody;
      threads := threads[t := if unique then Mutating(h) else Idle];
      StepFits(before, t, CALM);
      Record(before, t, CALM);
    }

    /** The part of get_mut behind the decision. */
    method GetMutFinish(t: nat, h: nat, unique: bool, turns: seq<Turn>, g: nat, ghost goal: State) returns (r: Answer)
      requires Valid() && t < |threads| && threads[t] == GmStore(h, unique)
      requires g < |turns| && !turns[g].spurious && Finish(Abs(), t, turns, g) == goal
      modifies this
      ensures Valid() && old(trace) <= trace && |threads| == old(|threads|) && Abs() == goal
      ensures r.Some? ==> r.i == h && threads[t] == Mutating(h) && OnlyHandle(Abs()) && dropped == 0
      ensures r.None? ==> threads[t] == Idle
      ensures if aborted then r.Unfinished? else r == if unique then Some(h) else None
    {
      if aborted {
        return Unfinished;
      }
      GetMutUnlock(t, h, unique);
      r := if unique then Some(h) else None;
    }

    /** The load, and what the others do before the store. */
    method GetMutLoadTurn(t: nat, h: nat, turns: seq<Turn>, g: nat, ghost goal: State) returns (unique: bool, next: nat)
      requires Valid() && !aborted && t < |threads| && threads[t] == GmLoad(h)
      requires g < |turns| && Finish(Abs(), t, turns, g) == goal
      modifies this
      ensures Valid() && old(trace) <= trace && |threads| == old(|threads|) && threads[t] == GmStore(h, unique)
      ensures next == g + 1 && Finish(Abs(), t, turns, next) == goal && (turns[g].spurious ==> !unique)
      ensures |old(trace)| < |trace| && (!turns[g].spurious ==> WasOnly(old(|trace|), unique))
    {
      unique := GetMutLoad(t, h, turns[g].spurious);
      ghost var soFar := trace;
      next := EndTurn(t, turns, g, old(Abs()), goal);
      Past(soFar, old(|trace|));
    }

    /** The part of get_mut behind a successful compare-exchange. */
    method GetMutDecide(t: nat, h: nat, turns: seq<Turn>, g: nat, ghost goal: State) returns (r: Answer)
      requires Valid() && t < |threads| && threads[t] == GmLoad(h)
      requires g + 1 < |turns| && !turns[g + 1].spurious && Finish(Abs(), t, turns, g) == goal
      modifies this
      ensures Valid() && old(trace) <= trace && |threads| == old(|threads|) && Abs() == goal
      ensures r.Some? ==>
        r.i == h && threads[t] == Mutating(h) && OnlyHandle(Abs()) && dropped == 0 && !turns[g].spurious
      ensures r.None? ==> threads[t] == Idle
      ensures r.Unfinished? ==> aborted
      ensures !aborted && !turns[g].spurious ==> WasOnly(old(|trace|), r.Some?)
    {
      if aborted {
        return Unfinished;
      }
      var unique, next := GetMutLoadTurn(t, h, turns, g, goal);
      ghost var soFar := trace;
      r := GetMutFinish(t, h, unique, turns, next, goal);
      Past(soFar, old(|trace|));
    }

    /** `alloc_ref_count.compare_exchange(1, usize::MAX)`, which may fail by a stale value. */
    method GetMutLock(t: nat, h: nat, stale: bool) returns (ok: bool)
      requires Valid() && !aborted && t < |threads| && threads[t] == GmCas(h)
      modifies this
      ensures Valid() && old(trace) < trace && |trace| == |old(trace)| + 1 && !aborted && |threads| == old(|threads|)
      ensures ok ==> threads[t] == GmLoad(h) && !stale
      ensures !ok ==> threads[t] == Idle && (stale || WasOnly(|trace| - 1, false))
      ensures Abs() == Step(old(Abs()), t, Choice(Deref, 0, stale))
    {
      ghost var before := Abs();
      Known();
      Safe(before, t);
      assert PcOk(before, t);
      ghost var loans := Loans(threads);
      Alive(handles, loans, t);
      if alloc != 1 && locker.By? {
        assert PcOk(before, locker.t);
        TwoAlive(handles, loans, t, locker.t);
      }
      ok := alloc == 1 && !stale;
      if ok {
        alloc := MAX;
        locker := By(t);
        threads := threads[t := GmLoad(h)];
      } else {
        threads := threads[t := Idle];
      }
      StepFits(before, t, Choice(Deref, 0, stale));
      Record(before, t, Choice(Deref, 0, stale));
    }

    /** The exchange, and what the others do before the load. */
    method GetMutLockTurn(t: nat, h: nat, turns: seq<Turn>, g: nat, ghost goal: State) returns (ok: bool, next: nat)
      requires Valid() && !aborted && t < |threads| && threads[t] == GmCas(h)
      requires g < |turns| && Finish(Abs(), t, turns, g) == goal
      modifies this
      ensures Valid() && old(trace) <= trace && |threads| == old(|threads|) && next == g + 1
      ensures ok ==> threads[t] == GmLoad(h) && !turns[g].spurious && Finish(Abs(), t, turns, next) == goal
      ensures !ok ==> threads[t] == Idle && !aborted && Abs() == goal
      ensures !ok && !turns[g].spurious ==> WasOnly(old(|trace|), false)
    {
      ok := GetMutLock(t, h, turns[g].spurious);
      next := g + 1;
      if ok {
        next := EndTurn(t, turns, g, old(Abs()), goal);
      }
    }

    /**
     `Arc::get_mut`: the answer is right at a moment of the call unless a read was stale, and stays right if it
     is Some. `early` and `late` say whether the exchange and the load are stale.
     */
    method GetMut(t: nat, h: nat, first: Gap, second: Gap, third: Gap, early: bool, late: bool) returns (r: Answer)
      requires Valid() && !aborted && t < |threads| && threads[t] == Idle
      requires Admits(handles, Loans(threads), Exclusive(h, Arc))
      modifies this
      ensures Valid() && old(trace) <= trace && |threads| == old(|threads|)
      ensures r.Some? ==> r.i == h && threads[t] == Mutating(h) && OnlyHandle(Abs()) && dropped == 0 && !early && !late
      ensures r.None? ==> threads[t] == Idle
      ensures r.Unfinished? ==> aborted
      ensures !aborted && !early && !late ==> exists j: nat :: old(|trace|) <= j && WasOnly(j, r.Some?)
      ensures Abs() == Finish(old(Begun(Abs(), t, Op.GetMut, h, first)), t,
                              [Turn(early, second), Turn(late, third), QUIET], 0)
    {
      BeginCall(t, Op.GetMut, h, first);
      if aborted {
        return Unfinished;
      }
      var turns := [Turn(early, second), Turn(late, third), QUIET];
      ghost var goal := Finish(Abs(), t, turns, 0);
      ghost var j := |trace|;
      var locked, g := GetMutLockTurn(t, h, turns, 0, goal);
      r := None;
      if locked {
        j := |trace|;
        r := GetMutDecide(t, h, turns, g, goal);
      }
      assert !aborted && !early && !late ==> WasOnly(j, r.Some?);
    }

    method DropT(t: nat)
      requires Valid() && !aborted && t < |threads| && threads[t] == DropData
      modifies this
      ensures Valid() && old(trace) <= trace && !aborted && |threads| == old(|threads|)
      ensures threads[t] == DropImplicit && old(dropped) == 0 && dropped == 1 && handles == old(handles)
      ensures Abs() == Step(old(Abs()), t, CALM)
    {
      ghost var before := Abs();
      Known();
      assert PcOk(before, t);
      Safe(before, t);
      dropped := dropped + 1;
      threads := threads[t := DropImplicit];
      StepFits(before, t, CALM);
      Record(before, t, CALM);
    }

    lemma ImplicitLowers(t: nat)
      requires Valid() && !aborted && t < |threads| && threads[t] == DropImplicit
      ensures alloc > 0 && dropped == 1 && data == 0
      ensures var free := alloc == 1; var s' := Step(Abs(), t, CALM);
        && Bounded(s')
        && s' == Abs().(alloc := alloc - 1, last := Nobody, threads := threads[t := if free then Freeing else Idle],
                        freer := if free then By(t) else freer)
    {
      Known();
      assert PcOk(Abs(), t);
      Safe(Abs(), t);
      StepFits(Abs(), t, CALM);
    }

    /** `alloc_ref_count.fetch_sub(1)` for the implicit weak reference. */
    method DecrementAlloc(t: nat) returns (free: bool)
      requires Valid() && !aborted && t < |threads| && threads[t] == DropImplicit
      modifies this
      ensures Valid() && old(trace) <= trace && !aborted && |threads| == old(|threads|)
      ensures free <==> old(alloc) == 1
      ensures threads[t] == (if free then Freeing else Idle) && handles == old(handles)
      ensures dropped == 1 && data == 0 && Abs() == Step(old(Abs()), t, CALM)
    {
      ImplicitLowers(t);
      ghost var before := Abs();
      free := alloc == 1;
      alloc := alloc - 1;
      last := Nobody;
      threads := threads[t := if free then Freeing else Idle];
      freer := if free then By(t) else freer;
      Record(before, t, CALM);
    }

    method Free(t: nat)
      requires Valid() && !aborted && t < |threads| && threads[t] == Freeing
      modifies this
      ensures Valid() && old(trace) <= trace && !aborted && |threads| == old(|threads|)
      ensures threads[t] == Idle && old(freed) == 0 && freed == 1 && handles == old(handles)
      ensures dropped == 1 && data == 0 && Abs() == Step(old(Abs()), t, CALM)
    {
      ghost var before := Abs();
      Known();
      assert PcOk(before, t);
      Safe(before, t);
      freed := freed + 1;
      freer := Nobody;
      threads := threads[t := Idle];
      StepFits(before, t, CALM);
      Record(before, t, CALM);
    }

    /** The end of the block. */
    method FreeTurn(t: nat, h: nat, turns: seq<Turn>, g: nat, ghost goal: State)
      requires Valid() && t < |threads| && threads[t] == Freeing && h < |handles| && handles[h] == Gone
      requires Calmly(turns) && g < |turns| && Finish(Abs(), t, turns, g) == goal
      modifies this
      ensures Valid() && old(trace) <= trace && |threads| == old(|threads|) && Abs() == goal
      ensures !aborted ==> threads[t] == Idle && h < |handles| && handles[h] == Gone && dropped == 1 && data == 0
    {
      if !aborted {
        Free(t);
      }
    }

    /** The weak reference shared by all `Arc`s is dropped, and with it the block if it was the last. */
    method DropShared(t: nat, h: nat, turns: seq<Turn>, g: nat, ghost goal: State)
      requires Valid() && t < |threads| && threads[t] == DropImplicit
      requires h < |handles| && handles[h] == Gone
      requires Calmly(turns) && g + 2 <= |turns| && Finish(Abs(), t, turns, g) == goal
      modifies this
      ensures Valid() && old(trace) <= trace && |threads| == old(|threads|) && Abs() == goal
      ensures !aborted ==> threads[t] == Idle && h < |handles| && handles[h] == Gone && dropped == 1 && data == 0
    {
      if aborted {
        return;
      }
      var free := DecrementAlloc(t);
      if free {
        var next := EndTurn(t, turns, g, old(Abs()), goal);
        FreeTurn(t, h, turns, next, goal);
      }
    }

    /** What the last `Arc` owes: T, and the weak reference shared by all `Arc`s. */
    method EndLifetime(t: nat, h: nat, turns: seq<Turn>, g: nat, ghost goal: State)
      requires Valid() && t < |threads| && threads[t] == DropData
      requires h < |handles| && handles[h] == Gone
      requires Calmly(turns) && g + 3 <= |turns| && Finish(Abs(), t, turns, g) == goal
      modifies this
      ensures Valid() && old(trace) <= trace && |threads| == old(|threads|) && Abs() == goal
      ensures !aborted ==> threads[t] == Idle && h < |handles| && handles[h] == Gone && dropped == 1 && data == 0
    {
      if aborted {
        return;
      }
      DropT(t);
      var next := EndTurn(t, turns, g, old(Abs()), goal);
      DropShared(t, h, turns, next, goal);
    }

    lemma ArcLowers(t: nat, h: nat)
      requires Valid() && !aborted && t < |threads| && threads[t] == Dropping(h)
      ensures data > 0 && h < |handles|
      ensures var ended := data == 1; var s' := Step(Abs(), t, CALM);
        && Bounded(s')
        && s' == Abs().(data := data - 1, handles := handles[h := Gone],
                        threads := threads[t := if ended then DropData else Idle],
                        last := if ended then By(t) else last)
    {
      Known();
      Safe(Abs(), t);
      Alive(handles, Loans(threads), t);
      StepFits(Abs(), t, CALM);
    }

    /** `data_ref_count.fetch_sub(1)`. */
    method Decrement(t: nat, h: nat) returns (ended: bool)
      requires Valid() && !aborted && t < |threads| && threads[t] == Dropping(h)
      modifies this
      ensures Valid() && old(trace) <= trace && !aborted && |threads| == old(|threads|)
      ensures h < |handles| && handles[h] == Gone && threads[t] == if ended then DropData else Idle
      ensures |trace| == |old(trace)| + 1 && CountedDown(|trace| - 1, t, h, ended)
      ensures Abs() == Step(old(Abs()), t, CALM)
    {
      ArcLowers(t, h);
      ghost var before := Abs();
      ended := data == 1;
      data := data - 1;
      handles := handles[h := Gone];
      threads := threads[t := if ended then DropData else Idle];
      last := if ended then By(t) else last;
      Record(before, t, CALM);
    }

    /** The decrement, and what the others do if more is to be dropped. */
    method DecrementTurn(t: nat, h: nat, turns: seq<Turn>, g: nat, ghost goal: State) returns (ended: bool, next: nat)
      requires Valid() && !aborted && t < |threads| && threads[t] == Dropping(h)
      requires Calmly(turns) && g + 4 <= |turns| && Finish(Abs(), t, turns, g) == goal
      modifies this
      ensures Valid() && old(trace) <= trace && |threads| == old(|threads|) && h < |handles| && handles[h] == Gone
      ensures if ended then threads[t] == DropData && next == g + 1 && Finish(Abs(), t, turns, next) == goal
              else threads[t] == Idle && !aborted && Abs() == goal
      ensures CountedDown(old(|trace|), t, h, ended)
    {
      ended := Decrement(t, h);
      next := g;
      if ended {
        ghost var soFar := trace;
        next := EndTurn(t, turns, g, old(Abs()), goal);
        Past(soFar, old(|trace|));
      }
    }

    /** The body of `Arc::drop`. */
    method GiveUp(t: nat, h: nat, turns: seq<Turn>, g: nat, ghost goal: State) returns (ended: bool)
      requires Valid() && !aborted && t < |threads| && threads[t] == Dropping(h)
      requires Calmly(turns) && g + 4 <= |turns| && Finish(Abs(), t, turns, g) == goal
      modifies this
      ensures Valid() && old(trace) <= trace && |threads| == old(|threads|) && Abs() == goal
      ensures !aborted ==> threads[t] == Idle && h < |handles| && handles[h] == Gone
      ensures !aborted && ended ==> dropped == 1 && data == 0
      ensures CountedDown(old(|trace|), t, h, ended)
    {
      var next;
      ended, next := DecrementTurn(t, h, turns, g, goal);
      if ended {
        ghost var soFar := trace;
        EndLifetime(t, h, turns, next, goal);
        Past(soFar, old(|trace|));
      }
    }

    /** `Arc::drop`: who takes the first count to 0 drops T and the implicit weak reference. */
    method DropArc(t: nat, h: nat, first: Gap, second: Gap, third: Gap, fourth: Gap) returns (ended: bool)
      requires Valid() && !aborted && t < |threads| && threads[t] == Idle
      requires Admits(handles, Loans(threads), Exclusive(h, Arc))
      modifies this
      ensures Valid() && old(trace) <= trace && |threads| == old(|threads|)
      ensures !aborted ==> threads[t] == Idle && h < |handles| && handles[h] == Gone
      ensures !aborted && ended ==> dropped == 1 && data == 0
      ensures !aborted ==> exists j: nat :: old(|trace|) <= j && CountedDown(j, t, h, ended)
      ensures Abs() == Finish(old(Begun(Abs(), t, Op.Drop, h, first)), t,
                              [Turn(false, second), Turn(false, third), Turn(false, fourth), QUIET], 0)
    {
      BeginCall(t, Op.Drop, h, first);
      ended := false;
      if !aborted {
        var turns := [Turn(false, second), Turn(false, third), Turn(false, fourth), QUIET];
        ended := GiveUp(t, h, turns, 0, Finish(Abs(), t, turns, 0));
      }
    }

    lemma WeakCloneRaises(t: nat, h: nat)
      requires Valid() && Roomy(Abs(), 1) && !aborted && t < |threads| && threads[t] == WeakCloning(h)
      ensures freed == 0 && alloc < MAX
      ensures var ok := alloc <= MAX / 2; var s' := Step(Abs(), t, CALM);
        && Bounded(s')
        && s' == Abs().(alloc := alloc + 1, handles := handles + [if ok then Weak else Stray(0, 1, t)],
                        threads := threads[t := if ok then Idle else Aborting])
    {
      Known();
      Safe(Abs(), t);
      Alive(handles, Loans(threads), t);
      StepFits(Abs(), t, CALM);
    }

    /** `alloc_ref_count.fetch_add(1)`. */
    method IncrementWeak(t: nat, h: nat) returns (ok: bool)
      requires Valid() && Roomy(Abs(), 1) && !aborted && t < |threads| && threads[t] == WeakCloning(h)
      modifies this
      ensures Valid() && old(trace) <= trace && !aborted && |threads| == old(|threads|)
      ensures ok ==> handles == old(handles) + [Weak] && freed == 0 && threads[t] == Idle
      ensures |trace| == |old(trace)| + 1 && (ok ==> Created(|trace| - 1, t, |handles| - 1, Weak))
      ensures !ok ==> threads[t] == Aborting
      ensures alloc == old(alloc) + 1 && (ok <==> old(alloc) <= MAX / 2)
      ensures Abs() == Step(old(Abs()), t, CALM)
    {
      WeakCloneRaises(t, h);
      ghost var before := Abs();
      ok := alloc <= MAX / 2;
      alloc := alloc + 1;
      handles := handles + [if ok then Weak else Stray(0, 1, t)];
      threads := threads[t := if ok then Idle else Aborting];
      Record(before, t, CALM);
      assert trace[..|trace|] == trace;
    }

    /** `Weak::clone`. */
    method CloneWeak(t: nat, h: nat, gap: Gap) returns (r: Answer)
      requires Valid() && Roomy(Abs(), 1) && !aborted && t < |threads| && threads[t] == Idle
      requires Admits(handles, Loans(threads), Shared(h, Weak))
      modifies this
      ensures Valid() && old(trace) <= trace && |threads| == old(|threads|)
      ensures r.Some? ==> r.i < |handles| && handles[r.i] == Weak && freed == 0 && threads[t] == Idle
      ensures r.Some? ==> alloc <= MAX / 2 + 1
      ensures r.Some? ==> exists j: nat :: old(|trace|) <= j && Created(j, t, r.i, Weak)
      ensures !r.Some? ==> aborted
      ensures Abs() == Finish(old(Begun(Abs(), t, Op.CloneWeak, h, gap)), t, [QUIET, QUIET], 0)
    {
      BeginCall(t, Op.CloneWeak, h, gap);
      if aborted {
        return Unfinished;
      }
      var ok := IncrementWeak(t, h);
      if !ok {
        Abort(t);
        return Unfinished;
      }
      r := Some(|handles| - 1);
    }

    lemma WeakLowers(t: nat, h: nat)
      requires Valid() && !aborted && t < |threads| && threads[t] == WeakDropping(h)
      ensures alloc > 0 && h < |handles| && Bounded(Step(Abs(), t, CALM))
      ensures var free := alloc == 1;
        Step(Abs(), t, CALM) == Abs().(alloc := alloc - 1, handles := handles[h := Gone],
                                       threads := threads[t := if free then Freeing else Idle],
                                       freer := if free then By(t) else freer)
    {
      Known();
      Safe(Abs(), t);
      Alive(handles, Loans(threads), t);
      StepFits(Abs(), t, CALM);
    }

    method DecrementWeak(t: nat, h: nat) returns (free: bool)
      requires Valid() && !aborted && t < |threads| && threads[t] == WeakDropping(h)
      modifies this
      ensures Valid() && old(trace) <= trace && !aborted && |threads| == old(|threads|)
      ensures h < |handles| && handles[h] == Gone && threads[t] == if free then Freeing else Idle
      ensures (free <==> old(alloc) == 1) && Abs() == Step(old(Abs()), t, CALM)
    {
      WeakLowers(t, h);
      ghost var before := Abs();
      free := alloc == 1;
      alloc := alloc - 1;
      handles := handles[h := Gone];
      threads := threads[t := if free then Freeing else Idle];
      freer := if free then By(t) else freer;
      Record(before, t, CALM);
    }

    /** The body of `Weak::drop`. */
    method GiveUpWeak(t: nat, h: nat, turns: seq<Turn>, g: nat, ghost goal: State)
      requires Valid() && !aborted && t < |threads| && threads[t] == WeakDropping(h)
      requires Calmly(turns) && g + 2 <= |turns| && Finish(Abs(), t, turns, g) == goal
      modifies this
      ensures Valid() && old(trace) <= trace && |threads| == old(|threads|) && Abs() == goal
      ensures !aborted ==> threads[t] == Idle && h < |handles| && handles[h] == Gone
    {
      var free := DecrementWeak(t, h);
      if free {
        var next := EndTurn(t, turns, g, old(Abs()), goal);
        FreeTurn(t, h, turns, next, goal);
      }
    }

    /** `Weak::drop`. */
    method DropWeakHandle(t: nat, h: nat, first: Gap, second: Gap)
      requires Valid() && !aborted && t < |threads| && threads[t] == Idle
      requires Admits(handles, Loans(threads), Exclusive(h, Weak))
      modifies this
      ensures Valid() && old(trace) <= trace && |threads| == old(|threads|)
      ensures !aborted ==> threads[t] == Idle && h < |handles| && handles[h] == Gone
      ensures Abs() == Finish(old(Begun(Abs(), t, Op.DropWeak, h, first)), t, [Turn(false, second), QUIET], 0)
    {
      BeginCall(t, Op.DropWeak, h, first);
      if aborted {
        return;
      }
      var turns := [Turn(false, second), QUIET];
      GiveUpWeak(t, h, turns, 0, Finish(Abs(), t, turns, 0));
    }
  }
}
