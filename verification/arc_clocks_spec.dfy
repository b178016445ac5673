/**
 What every step of the one-counter `Arc` does, said without counter, messages and clocks: a specification
 that counts references instead.
 */
module ArcClocksSpec {
  import opened References
  import opened Sums
  import opened Usize
  import opened ArcClocks

  datatype Side = Side(pc: Pc, shared: set<nat>)

  datatype View = View(refs: seq<Status>, sides: seq<Side>, freed: nat, aborted: bool, events: nat, writes: set<nat>)

  /** The value that a load returns, if it returns one. */
  datatype Load = Nothing | Value(n: nat)

  // ----- The specification -----

  function Keeps(x: Status): nat {
    if x == Gone then 0 else 1
  }

  /** What keeps the block: every reference. */
  function Keepers(v: View): nat {
    Sum(v.refs, Keeps)
  }

  predicate Lives(v: View, h: nat) {
    h < |v.refs| && v.refs[h] == Live
  }

  predicate Unowned(v: View, h: nat) {
    forall u | 0 <= u < |v.sides| :: !Owns(v.sides[u].pc, h)
  }

  predicate Unused(v: View, h: nat) {
    Unowned(v, h) && forall u | 0 <= u < |v.sides| :: h !in v.sides[u].shared
  }

  function Move(v: View, t: nat, pc: Pc): View
    requires t < |v.sides|
  {
    v.(sides := v.sides[t := v.sides[t].(pc := pc)])
  }

  /** The same with an access to the block. */
  function Act(v: View, t: nat, pc: Pc): View
    requires t < |v.sides|
  {
    Move(v, t, pc).(events := v.events + 1)
  }

  /** A new reference; beyond the limit the process is about to abort. */
  function SpecClone(v: View, t: nat): View
    requires t < |v.sides|
  {
    if Keepers(v) > MAX / 2 then Act(v, t, Aborting).(refs := v.refs + [Doomed])
    else Act(v, t, Calm).(refs := v.refs + [Live])
  }

  function SpecCalm(v: View, t: nat, a: Action): View
    requires t < |v.sides|
  {
    var shared := v.sides[t].shared;
    match a
    case BeginShared(h) =>
      if Lives(v, h) && Unowned(v, h) then v.(sides := v.sides[t := v.sides[t].(shared := shared + {h})]) else v
    case EndShared(h) => if h in shared then v.(sides := v.sides[t := v.sides[t].(shared := shared - {h})]) else v
    case Access(h) => if h in shared then v.(events := v.events + 1) else v
    case Clone(h) => if h in shared then SpecClone(v, t) else v
    case BeginDrop(h) => if Lives(v, h) && Unused(v, h) then Move(v, t, Dropping(h)) else v
    case BeginGetMut(h) => if Lives(v, h) && Unused(v, h) then Move(v, t, GmLoad(h)) else v
    case _ => v
  }

  /** The last reference frees the block, and get_mut goes on to Some if it reads 1. */
  function SpecStep(v: View, t: nat, a: Action, seen: Load): View {
    if v.aborted || t >= |v.sides| then v else
    match v.sides[t].pc
    case Calm => SpecCalm(v, t, a)
    case Dropping(h) =>
      if h >= |v.refs| then v else Act(v, t, if Keepers(v) == 1 then DropFence else Calm).(refs := v.refs[h := Gone])
    case DropFence => Move(v, t, Freeing)
    case Freeing => Move(v, t, Calm).(freed := v.freed + 1)
    case GmLoad(h) => if seen.Value? then Act(v, t, if seen.n == 1 then GmFence(h) else Calm) else v
    case GmFence(h) => Move(v, t, Mutating(h))
    case Mutating(h) =>
      if a.Write? then v.(events := v.events + 1, writes := v.writes + {v.events})
      else if a.EndMut? then Move(v, t, Calm) else v
    case Aborting => v.(aborted := true)
  }

  // ----- Seeing the weak memory model as the specification -----

  function SideOf(th: Thread): Side {
    Side(th.pc, th.shared)
  }

  function RefsOf(handles: seq<Handle>): (refs: seq<Status>)
    ensures |refs| == |handles| && forall h | 0 <= h < |refs| :: refs[h] == handles[h].status
  {
    seq(|handles|, h requires 0 <= h < |handles| => handles[h].status)
  }

  function SidesOf(threads: seq<Thread>): (sides: seq<Side>)
    ensures |sides| == |threads| && forall t | 0 <= t < |sides| :: sides[t] == SideOf(threads[t])
  {
    seq(|threads|, t requires 0 <= t < |threads| => SideOf(threads[t]))
  }

  function ViewOf(s: State): View {
    View(RefsOf(s.handles), SidesOf(s.threads), s.freed, s.aborted, s.events, s.writes)
  }

  /** What the load of message `i` by thread `t` returns. */
  function Seen(s: State, t: nat, a: Action): Load {
    if t < |s.threads| && s.threads[t].pc.GmLoad? && a.Continue? && s.threads[t].clock.at <= a.i < |s.msgs|
    then Value(s.msgs[a.i].value) else Nothing
  }

  lemma {:induction false} SameShares(handles: seq<Handle>)
    ensures Sum(RefsOf(handles), Keeps) == Sum(handles, Share)
  {
    if handles == [] {
    } else {
      assert RefsOf(handles)[1..] == RefsOf(handles[1..]);
      SameShares(handles[1..]);
    }
  }

  lemma SidesMove(threads: seq<Thread>, t: nat, th: Thread)
    requires t < |threads|
    ensures SidesOf(threads[t := th]) == SidesOf(threads)[t := SideOf(th)]
  {
  }

  lemma RefsChange(handles: seq<Handle>, h: nat, x: Handle)
    requires h < |handles|
    ensures RefsOf(handles[h := x]) == RefsOf(handles)[h := x.status]
  {
  }

  lemma RefsGrow(handles: seq<Handle>, x: Handle)
    ensures RefsOf(handles + [x]) == RefsOf(handles) + [x.status]
  {
  }

  /** The guards of the weak memory model are those of the specification. */
  lemma Guards(s: State, h: nat)
    ensures var v := ViewOf(s);
      && (CanShare(s, h) <==> Lives(v, h) && Unowned(v, h))
      && (CanOwn(s, h) <==> Lives(v, h) && Unused(v, h))
  {
    var v := ViewOf(s);
    forall u | 0 <= u < |s.threads|
      ensures Owns(v.sides[u].pc, h) <==> Owns(s.threads[u].pc, h)
      ensures h in v.sides[u].shared <==> h in s.threads[u].shared
    {
      assert v.sides[u] == SideOf(s.threads[u]);
    }
  }

  // ----- Every step is a step of the specification -----

  lemma BorrowConforms(s: State, t: nat, h: nat)
    requires t < |s.threads| && (h in s.threads[t].shared ==> h < |s.handles|)
    ensures ViewOf(BeginSharedStep(s, t, h)) == SpecCalm(ViewOf(s), t, BeginShared(h))
    ensures ViewOf(EndSharedStep(s, t, h)) == SpecCalm(ViewOf(s), t, EndShared(h))
  {
    Guards(s, h);
    if CanShare(s, h) { SidesMove(s.threads, t, BeginSharedStep(s, t, h).threads[t]); }
    if h in s.threads[t].shared {
      var s' := EndSharedStep(s, t, h);
      SidesMove(s.threads, t, s'.threads[t]);
      RefsChange(s.handles, h, s'.handles[h]);
      assert RefsOf(s'.handles) == RefsOf(s.handles);
    }
  }

  lemma TouchConforms(s: State, t: nat)
    requires t < |s.threads|
    ensures SidesOf(Touch(s, t).threads) == SidesOf(s.threads)
  {
    SidesMove(s.threads, t, Touch(s, t).threads[t]);
  }

  lemma CloneConforms(s: State, t: nat, h: nat)
    requires t < |s.threads| && s.threads[t].pc.Calm? && s.msgs != [] && Last(s).value == Sum(s.handles, Share)
    ensures ViewOf(CloneStep(s, t, h)) == SpecCalm(ViewOf(s), t, Clone(h))
  {
    if h in s.threads[t].shared {
      SameShares(s.handles);
      var s' := CloneStep(s, t, h);
      SidesMove(s.threads, t, s'.threads[t]);
      RefsGrow(s.handles, s'.handles[|s.handles|]);
    }
  }

  lemma OwnConforms(s: State, t: nat, h: nat, pc: Pc)
    requires t < |s.threads|
    ensures var v := ViewOf(s);
      ViewOf(BeginOwnStep(s, t, h, pc)) == if Lives(v, h) && Unused(v, h) then Move(v, t, pc) else v
  {
    Guards(s, h);
    if CanOwn(s, h) { SidesMove(s.threads, t, BeginOwnStep(s, t, h, pc).threads[t]); }
  }

  lemma CalmConforms(s: State, t: nat, a: Action)
    requires Inv(s) && t < |s.threads| && s.threads[t].pc.Calm?
    ensures ViewOf(CalmStep(s, t, a)) == SpecCalm(ViewOf(s), t, a)
  {
    assert ThreadOk(s, t);
    match a
    case BeginShared(h) => BorrowConforms(s, t, h);
    case EndShared(h) => BorrowConforms(s, t, h);
    case Access(_) => TouchConforms(s, t);
    case Clone(h) => CloneConforms(s, t, h);
    case BeginDrop(h) => OwnConforms(s, t, h, Dropping(h));
    case BeginGetMut(h) => OwnConforms(s, t, h, GmLoad(h));
    case _ =>
  }

  lemma DropConforms(s: State, t: nat, h: nat)
    requires t < |s.threads| && h < |s.handles| && s.msgs != [] && Last(s).value == Sum(s.handles, Share)
    ensures var v := ViewOf(s);
      ViewOf(DropStep(s, t, h)) == Act(v, t, if Keepers(v) == 1 then DropFence else Calm).(refs := v.refs[h := Gone])
  {
    SameShares(s.handles);
    var s' := DropStep(s, t, h);
    SidesMove(s.threads, t, s'.threads[t]);
    RefsChange(s.handles, h, s'.handles[h]);
  }

  lemma FenceConforms(s: State, t: nat, pc: Pc)
    requires t < |s.threads|
    ensures ViewOf(FenceStep(s, t, pc)) == Move(ViewOf(s), t, pc)
    ensures ViewOf(FreeStep(s, t)) == Move(ViewOf(s), t, Calm).(freed := s.freed + 1)
  {
    SidesMove(s.threads, t, FenceStep(s, t, pc).threads[t]);
    SidesMove(s.threads, t, FreeStep(s, t).threads[t]);
  }

  lemma EndOwnConforms(s: State, t: nat, h: nat)
    requires t < |s.threads| && h < |s.handles|
    ensures ViewOf(EndOwn(s, t, h)) == Move(ViewOf(s), t, Calm)
  {
    var s' := EndOwn(s, t, h);
    SidesMove(s.threads, t, s'.threads[t]);
    RefsChange(s.handles, h, s'.handles[h]);
    assert RefsOf(s'.handles) == RefsOf(s.handles);
  }

  lemma GmLoadConforms(s: State, t: nat, h: nat, i: nat)
    requires t < |s.threads| && h < |s.handles| && s.threads[t].clock.at <= i < |s.msgs|
    ensures ViewOf(GmLoadStep(s, t, h, i)) == Act(ViewOf(s), t, if s.msgs[i].value == 1 then GmFence(h) else Calm)
  {
    var s' := GmLoadStep(s, t, h, i);
    assert s'.threads == s.threads[t := s'.threads[t]];
    SidesMove(s.threads, t, s'.threads[t]);
    RefsChange(s.handles, h, s'.handles[h]);
    assert s'.handles == s.handles[h := s'.handles[h]];
    assert RefsOf(s'.handles) == RefsOf(s.handles);
  }

  lemma EndsConform(s: State, t: nat, a: Action)
    requires Inv(s) && !s.aborted && t < |s.threads|
    requires s.threads[t].pc.Dropping? || s.threads[t].pc.DropFence? || s.threads[t].pc.Freeing?
    ensures ViewOf(Step(s, t, a)) == SpecStep(ViewOf(s), t, a, Seen(s, t, a))
  {
    assert ThreadOk(s, t) && ViewOf(s).sides[t] == SideOf(s.threads[t]);
    if s.threads[t].pc.Dropping? {
      DropConforms(s, t, s.threads[t].pc.h);
    } else {
      FenceConforms(s, t, Freeing);
    }
  }

  lemma GetMutConforms(s: State, t: nat, a: Action)
    requires s.msgs != [] && !s.aborted && t < |s.threads|
    requires s.threads[t].pc.GmLoad? || s.threads[t].pc.GmFence? || s.threads[t].pc.Mutating?
    requires s.threads[t].pc.h < |s.handles|
    ensures ViewOf(Step(s, t, a)) == SpecStep(ViewOf(s), t, a, Seen(s, t, a))
  {
    assert ViewOf(s).sides[t] == SideOf(s.threads[t]);
    match s.threads[t].pc
    case GmLoad(h) => if Seen(s, t, a).Value? { GmLoadConforms(s, t, h, a.i); }
    case GmFence(h) => FenceConforms(s, t, Mutating(h));
    case Mutating(h) =>
      TouchConforms(s, t);
      EndOwnConforms(s, t, h);
  }

  lemma StepConforms(s: State, t: nat, a: Action)
    requires Inv(s)
    ensures ViewOf(Step(s, t, a)) == SpecStep(ViewOf(s), t, a, Seen(s, t, a))
  {
    if !s.aborted && t < |s.threads| {
      assert ThreadOk(s, t) && ViewOf(s).sides[t] == SideOf(s.threads[t]);
      match s.threads[t].pc
      case Calm => CalmConforms(s, t, a);
      case Dropping(_) | DropFence | Freeing => EndsConform(s, t, a);
      case GmLoad(_) | GmFence(_) | Mutating(_) => GetMutConforms(s, t, a);
      case Aborting =>
    }
  }

  /** Every step of every run is the step of the specification on the references that there are. */
  lemma EveryStepConforms(n: nat, sched: seq<(nat, Action)>, t: nat, a: Action)
    requires n <= MAX / 2
    ensures var s := Run(Init(n), sched); ViewOf(Step(s, t, a)) == SpecStep(ViewOf(s), t, a, Seen(s, t, a))
  {
    InitInv(n);
    RunInv(Init(n), sched);
    StepConforms(Run(Init(n), sched), t, a);
  }
}
