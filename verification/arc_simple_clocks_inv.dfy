/** What every step of the simple `Arc` under the weak memory model keeps, beside its borrows and its image. */
module SimpleClocksInv {
  import opened Basics
  import opened References
  import opened Sums
  import opened Usize
  import opened TwoClocks
  import opened SimpleClocks
  import opened SimpleClocksBorrows
  import opened SimpleClocksRelation
  import A = ArcClocks

  // ----- The first counter -----

  /** The share of a handle in the first counter, and in the second. */
  function ArcShare(x: Handle): nat {
    if (x.kind == Arc || x.kind == Lost) && x.status != Gone then 1 else 0
  }

  function Share(x: Handle): nat {
    if x.status == Gone then 0 else 1
  }

  /** An upgrade that is counted in the first counter only. */
  function Rising(th: Thread): nat {
    if th.pc.UpAlloc? then 1 else 0
  }

  ghost function Arcs(s: State): nat {
    Sum(s.handles, ArcShare) + Sum(s.threads, Rising)
  }

  predicate Balanced(s: State, arcs: nat)
    requires s.data != []
  {
    && LastData(s).value == arcs
    && (arcs > 0 ==> s.dropped == 0 && s.last.Nobody?)
    && (arcs == 0 ==> s.dropped == One(s.last.Nobody?))
  }

  /** A count of 0 is never overwritten, and the assert of upgrade never fails. */
  predicate Values(s: State) {
    && (forall i | 0 <= i < |s.data| :: s.data[i].value < MAX)
    && (forall i | 0 <= i < |s.data| - 1 :: s.data[i].value > 0)
  }

  predicate RoleOk(s: State, t: nat)
    requires t < |s.threads| && s.data != []
  {
    var th := s.threads[t];
    && (s.last == By(t) <==> th.pc.DropFence? || th.pc.DropT?)
    && (th.pc.UpCas? ==> th.pc.n > 0)
    && (th.pc.DropFence? ==> Leq(LastData(s).clock, Join(th.clock, th.pending)))
    && (th.pc.DropT? ==> Leq(LastData(s).clock, th.clock))
  }

  // ----- Accesses to T -----

  ghost predicate HandleCovers(s: State, h: nat, e: nat) {
    IsLive(s, h, Arc) && (e in s.handles[h].base.events || e in s.handles[h].ended.events)
  }

  ghost predicate ThreadCovers(s: State, t: nat, h: nat, e: nat) {
    t < |s.threads| && Uses(s.threads[t], h) && IsLive(s, h, Arc) && e in s.threads[t].clock.events
  }

  /** Access `e` to T is known to the newest message, to a live `Arc` or to a thread that works through one. */
  ghost predicate Covered(s: State, e: nat)
    requires s.data != []
  {
    || e in LastData(s).clock.events
    || (exists h: nat :: HandleCovers(s, h, e))
    || (exists t: nat, h: nat :: ThreadCovers(s, t, h, e))
  }

  ghost predicate Tracked(s: State)
    requires s.data != []
  {
    s.writes <= s.touched && forall e | e in s.touched :: e < s.events && Covered(s, e)
  }

  ghost predicate DataOk(s: State) {
    && s.data != []
    && Balanced(s, Arcs(s)) && Values(s)
    && (forall t: nat | t < |s.threads| :: RoleOk(s, t))
    && InRange(s.last, |s.threads|)
    && !s.bad
    && Tracked(s)
  }

  /** The state `a` of the one-counter `Arc` goes along with `s`. */
  ghost predicate Inv(s: State, a: A.State) {
    A.Inv(a) && Related(s, a) && InOrder(s) && Borrowed(s) && DataOk(s)
  }

  lemma InitInv(n: nat)
    requires n <= MAX / 2
    ensures Inv(Init(n), A.Init(n))
  {
    var s := Init(n);
    A.InitInv(n);
    InitRelated(n);
    assert s.handles == [] + [s.handles[0]];
    SumAppend([], s.handles[0], ArcShare);
    SumConstant(s.threads, 0, Rising);
    assert HandleCovers(s, 0, 0);
  }

  // ----- Consequences -----

  /** While a thread works through a handle, the block exists. */
  lemma BlockLives(s: State, a: A.State, t: nat, h: nat)
    requires Inv(s, a) && t < |s.threads|
    requires h in SharedImage(s.threads[t]) || (Asking(s.threads[t].pc) && s.threads[t].pc.h == h)
    ensures s.freed == 0 && LastAlloc(s).value >= 1
  {
    assert ThreadRelated(s.threads[t], a.threads[t]) && MsgRelated(LastAlloc(s), A.Last(a));
    assert A.Uses(a.threads[t], h);
    A.LiveIsCounted(a, t, h);
  }

  /** While there is an `Arc`, T is alive. */
  lemma DataLives(s: State, h: nat)
    requires DataOk(s) && IsLive(s, h, Arc)
    ensures LastData(s).value >= 1 && s.dropped == 0 && s.last.Nobody?
  {
    SumAtLeast(s.handles, h, ArcShare);
  }

  lemma {:induction false} SharesAgree(xs: seq<Handle>, xa: seq<A.Handle>)
    requires |xs| == |xa| && forall h | 0 <= h < |xs| :: HandleRelated(xs[h], xa[h])
    ensures Sum(xs, Share) == Sum(xa, A.Share)
  {
    if xs == [] {
    } else {
      assert HandleRelated(xs[0], xa[0]);
      SharesAgree(xs[1..], xa[1..]);
    }
  }

  lemma {:induction false} RisingOrAborting(ts: seq<Thread>, ta: seq<A.Thread>)
    requires |ts| == |ta| && forall t | 0 <= t < |ts| :: Rising(ts[t]) + A.IsAborting(ta[t]) <= 1
    ensures Sum(ts, Rising) + Sum(ta, A.IsAborting) <= |ts|
  {
    if ts == [] {
    } else {
      RisingOrAborting(ts[1..], ta[1..]);
    }
  }

  /** Thread `t` is neither in the middle of an upgrade nor about to abort. */
  lemma SomeNeither(ts: seq<Thread>, ta: seq<A.Thread>, t: nat)
    requires |ts| == |ta| && forall u | 0 <= u < |ts| :: Rising(ts[u]) + A.IsAborting(ta[u]) <= 1
    requires t < |ts| && Rising(ts[t]) == 0 && A.IsAborting(ta[t]) == 0
    ensures Sum(ts, Rising) + Sum(ta, A.IsAborting) < |ts|
  {
    var up := ts[t].(pc := UpAlloc(0));
    SumUpdate(ts, t, up, Rising);
    RisingOrAborting(ts[t := up], ta);
  }

  lemma SomeUncounted(xs: seq<Handle>, x: nat)
    requires x < |xs| && xs[x].status == Live && (xs[x].kind == Weak || xs[x].kind == Half)
    ensures Sum(xs, ArcShare) < Sum(xs, Share)
  {
    var more := xs[x].(kind := Arc);
    SumUpdate(xs, x, more, ArcShare);
    SumUpdate(xs, x, more, Share);
    SumMonotone(xs[x := more], ArcShare, Share);
  }

  /** One more reference fits into the first counter. */
  lemma Room(s: State, a: A.State, t: nat, x: nat)
    requires Inv(s, a) && t < |s.threads| && !s.threads[t].pc.UpAlloc? && !s.threads[t].pc.Aborting?
    requires IsLive(s, x, Weak) || IsLive(s, x, Half)
    ensures LastData(s).value + 1 < MAX
  {
    SomeUncounted(s.handles, x);
    SharesAgree(s.handles, a.handles);
    assert forall u | 0 <= u < |s.threads| :: ThreadRelated(s.threads[u], a.threads[u]);
    SomeNeither(s.threads, a.threads, t);
  }

  // ----- What a step of thread `t` keeps -----

  /** The count of references in the first counter, when `t` moves and handle `x` changes. */
  lemma CountKept(s: State, s': State, t: nat, x: nat)
    requires OneThread(s, s', t) && |s'.handles| == |s.handles|
    requires if x < |s.handles| then s'.handles == s.handles[x := s'.handles[x]] else s'.handles == s.handles
    ensures Arcs(s') + (if x < |s.handles| then ArcShare(s.handles[x]) else 0) + Rising(s.threads[t])
         == Arcs(s) + (if x < |s.handles| then ArcShare(s'.handles[x]) else 0) + Rising(s'.threads[t])
  {
    SumUpdate(s.threads, t, s'.threads[t], Rising);
    if x < |s.handles| { SumUpdate(s.handles, x, s'.handles[x], ArcShare); }
  }

  lemma RolesKept(s: State, s': State, t: nat)
    requires OneThread(s, s', t) && s.data != [] && s'.data != []
    requires forall u: nat | u < |s.threads| :: RoleOk(s, u)
    requires SameForOthers(s.last, s'.last, t) && InRange(s.last, |s.threads|)
    requires LastData(s') == LastData(s) || s.last.Nobody?
    requires RoleOk(s', t)
    ensures (forall u: nat | u < |s'.threads| :: RoleOk(s', u)) && InRange(s'.last, |s'.threads|)
  {
    forall u: nat | u < |s.threads| && u != t
      ensures RoleOk(s', u)
    {
      assert RoleOk(s, u);
    }
  }

  /** What thread `t` knows through its `Arc`s stays known. */
  lemma StillKnown(s: State, s': State, t: nat)
    requires OneThread(s, s', t) && s'.data != [] && Leq(s.threads[t].clock, s'.threads[t].clock)
    requires forall h: nat | Uses(s.threads[t], h) && IsLive(s, h, Arc) :: Uses(s'.threads[t], h) && IsLive(s', h, Arc)
    ensures forall e: nat, h: nat | ThreadCovers(s, t, h, e) :: Covered(s', e)
  {
    forall e: nat, h: nat | ThreadCovers(s, t, h, e)
      ensures Covered(s', e)
    {
      assert ThreadCovers(s', t, h, e);
    }
  }

  lemma CoverKept(s: State, s': State, t: nat, x: nat)
    requires OneThread(s, s', t) && s.data != [] && s'.data != []
    requires LastData(s).clock.events <= LastData(s').clock.events
    requires |s.handles| <= |s'.handles|
    requires forall g: nat | g < |s.handles| && g != x :: s'.handles[g] == s.handles[g]
    requires forall u: nat, h: nat, e: nat | u != t && ThreadCovers(s, u, h, e) :: IsLive(s', h, Arc)
    requires forall e: nat | HandleCovers(s, x, e) :: Covered(s', e)
    requires forall e: nat, h: nat | ThreadCovers(s, t, h, e) :: Covered(s', e)
    ensures forall e: nat | Covered(s, e) :: Covered(s', e)
  {
    forall e: nat | Covered(s, e)
      ensures Covered(s', e)
    {
      if e in LastData(s).clock.events {
      } else if h: nat :| HandleCovers(s, h, e) {
        assert h != x ==> HandleCovers(s', h, e);
      } else {
        var u: nat, h: nat :| ThreadCovers(s, u, h, e);
        assert u != t ==> ThreadCovers(s', u, h, e);
      }
    }
  }

  /** An `Arc` through which another thread works stays an `Arc`. */
  lemma OthersArcs(s: State, s': State, t: nat, x: nat)
    requires Borrowed(s) && OneThread(s, s', t) && |s.handles| <= |s'.handles|
    requires forall g: nat | g < |s.handles| && g != x :: s'.handles[g] == s.handles[g]
    requires IsLive(s, x, Arc) ==> IsLive(s', x, Arc) || Owns(s.threads[t].pc, x)
    ensures forall u: nat, h: nat, e: nat | u != t && ThreadCovers(s, u, h, e) :: IsLive(s', h, Arc)
  {
    forall u: nat, h: nat, e: nat | u != t && ThreadCovers(s, u, h, e)
      ensures IsLive(s', h, Arc)
    {
      assert BorrowsOk(s, t);
      assert Owns(s.threads[t].pc, h) ==> OwnedOk(s, t, h);
    }
  }

  /** A step that leaves the first counter alone, and all handles but `x`. */
  lemma DataKept(s: State, s': State, t: nat, x: nat)
    requires Borrowed(s) && DataOk(s) && OneThread(s, s', t) && s'.data == s.data && |s'.handles| == |s.handles|
    requires if x < |s.handles| then s'.handles == s.handles[x := s'.handles[x]] else s'.handles == s.handles
    requires x < |s.handles| ==> ArcShare(s'.handles[x]) == ArcShare(s.handles[x])
    requires IsLive(s, x, Arc) ==> IsLive(s', x, Arc)
    requires Rising(s'.threads[t]) == Rising(s.threads[t])
    requires s'.last == s.last && s'.dropped == s.dropped && RoleOk(s', t) && !s'.bad
    requires forall e: nat | HandleCovers(s, x, e) :: Covered(s', e)
    requires forall e: nat, h: nat | ThreadCovers(s, t, h, e) :: Covered(s', e)
    requires s.touched <= s'.touched && s'.touched <= s.touched + {s.events} && s.events <= s'.events
    requires s.events in s'.touched ==> s.events < s'.events && Covered(s', s.events)
    requires s'.writes <= s'.touched
    ensures DataOk(s')
  {
    CountKept(s, s', t, x);
    RolesKept(s, s', t);
    OthersArcs(s, s', t, x);
    CoverKept(s, s', t, x);
  }
}
