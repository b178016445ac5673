/**
 The second counter of the simple `Arc` is the counter of the one-counter `Arc`: every reference, `Arc` or
 `Weak`, is a handle of `ArcClocks`, and the first counter and T are just parts of the block that handles
 access. The first counter adds synchronisation, so clocks of the simple form know at least as much.
 */
module SimpleClocksRelation {
  import opened References
  import opened TwoClocks
  import opened SimpleClocks
  import opened SimpleClocksBorrows
  import A = ArcClocks

  predicate Below(a: A.Clock, c: Clock) {
    a.events <= c.events && a.at <= c.alloc
  }

  /** Where a thread of the one-counter `Arc` is meanwhile. */
  function PcImage(pc: Pc): A.Pc {
    match pc
    case FreeFence => A.DropFence
    case Freeing => A.Freeing
    case GmLoad(h) => A.GmLoad(h)
    case GmFence(h) => A.GmFence(h)
    case Mutating(h) => A.Mutating(h)
    case _ => A.Calm
  }

  /** A handle that is about to go is still borrowed shared, until its last decrement. */
  function SharedImage(th: Thread): set<nat> {
    if Leaving(th.pc) then th.shared + {th.pc.h} else th.shared
  }

  predicate ThreadRelated(th: Thread, ta: A.Thread) {
    && (ta.pc == PcImage(th.pc) || (ta.pc.Aborting? && th.pc.Aborting?))
    && ta.shared == SharedImage(th)
    && Below(ta.clock, th.clock) && Below(ta.pending, th.pending)
  }

  predicate HandleRelated(x: Handle, xa: A.Handle) {
    xa.status == x.status && (x.status == Live ==> Below(xa.base, x.base) && Below(xa.ended, x.ended))
  }

  predicate MsgRelated(m: Msg, ma: A.Msg) {
    ma.value == m.value && Below(ma.clock, m.clock)
  }

  predicate Related(s: State, a: A.State) {
    && |a.threads| == |s.threads| && |a.handles| == |s.handles| && |a.msgs| == |s.alloc| > 0
    && a.events == s.events && a.writes == s.writes && a.freed == s.freed && (a.aborted ==> s.aborted)
    && (forall i | 0 <= i < |s.alloc| :: MsgRelated(s.alloc[i], a.msgs[i]))
    && (forall t | 0 <= t < |s.threads| :: ThreadRelated(s.threads[t], a.threads[t]))
    && (forall h | 0 <= h < |s.handles| :: HandleRelated(s.handles[h], a.handles[h]))
  }

  lemma InitRelated(n: nat)
    ensures Related(Init(n), A.Init(n))
  {
  }

  // ----- What a step of thread `t` keeps -----

  predicate OneThreadToo(a: A.State, a': A.State, t: nat) {
    t < |a.threads| == |a'.threads| && a'.threads == a.threads[t := a'.threads[t]]
  }

  predicate SameLedger(s': State, a': A.State) {
    a'.events == s'.events && a'.writes == s'.writes && a'.freed == s'.freed && (a'.aborted ==> s'.aborted)
  }

  lemma RelatedKept(s: State, s': State, a: A.State, a': A.State, t: nat)
    requires Related(s, a) && OneThread(s, s', t) && OneThreadToo(a, a', t) && SameLedger(s', a')
    requires s'.alloc == s.alloc && a'.msgs == a.msgs
    requires ThreadRelated(s'.threads[t], a'.threads[t])
    requires |s'.handles| == |a'.handles|
    requires forall h | 0 <= h < |s'.handles| ::
               || (h < |s.handles| && s'.handles[h] == s.handles[h] && a'.handles[h] == a.handles[h])
               || HandleRelated(s'.handles[h], a'.handles[h])
    ensures Related(s', a')
  {
  }

  lemma RelatedAppended(s: State, s': State, a: A.State, a': A.State, t: nat)
    requires Related(s, a) && OneThread(s, s', t) && OneThreadToo(a, a', t) && SameLedger(s', a')
    requires |s'.alloc| == |s.alloc| + 1 && s'.alloc[..|s.alloc|] == s.alloc
    requires |a'.msgs| == |a.msgs| + 1 && a'.msgs[..|a.msgs|] == a.msgs
    requires MsgRelated(LastAlloc(s'), A.Last(a'))
    requires ThreadRelated(s'.threads[t], a'.threads[t])
    requires |s'.handles| == |a'.handles|
    requires forall h | 0 <= h < |s'.handles| ::
               || (h < |s.handles| && s'.handles[h] == s.handles[h] && a'.handles[h] == a.handles[h])
               || HandleRelated(s'.handles[h], a'.handles[h])
    ensures Related(s', a')
  {
    forall i | 0 <= i < |s'.alloc|
      ensures MsgRelated(s'.alloc[i], a'.msgs[i])
    {
      assert i < |s.alloc| ==> s'.alloc[i] == s.alloc[i] && a'.msgs[i] == a.msgs[i];
    }
  }

  /** Nobody uses a handle of the one-counter `Arc` that nobody uses here. */
  lemma UsesImage(s: State, a: A.State, u: nat, h: nat)
    requires Related(s, a) && u < |s.threads|
    ensures A.Owns(a.threads[u].pc, h) ==> Owns(s.threads[u].pc, h)
    ensures A.Uses(a.threads[u], h) ==> Uses(s.threads[u], h)
  {
    assert ThreadRelated(s.threads[u], a.threads[u]);
  }

  // ----- Steps with a counterpart -----

  /** An access to the block through a borrowed handle `h`, also to the first counter or to T. */
  lemma SimAccess(s: State, s': State, a: A.State, t: nat, h: nat)
    requires Related(s, a) && OneThread(s, s', t) && h in SharedImage(s.threads[t])
    requires PcImage(s.threads[t].pc) == A.Calm && !s.threads[t].pc.Aborting?
    requires s'.alloc == s.alloc && s'.events == s.events + 1 && s'.writes == s.writes && s'.freed == s.freed
    requires s'.aborted == s.aborted
    requires Leq(Tick(s.threads[t].clock, s.events), s'.threads[t].clock)
    requires Leq(s.threads[t].pending, s'.threads[t].pending)
    requires SharedImage(s'.threads[t]) == SharedImage(s.threads[t]) && PcImage(s'.threads[t].pc) == A.Calm
    requires |s'.handles| == |s.handles|
    requires forall g | 0 <= g < |s.handles| ::
               && s'.handles[g].status == s.handles[g].status
               && Leq(s.handles[g].base, s'.handles[g].base) && Leq(s.handles[g].ended, s'.handles[g].ended)
    ensures Related(s', A.AccessStep(a, t, h))
  {
    var a' := A.AccessStep(a, t, h);
    assert ThreadRelated(s.threads[t], a.threads[t]);
    assert forall g | 0 <= g < |s.handles| :: HandleRelated(s.handles[g], a.handles[g]);
    RelatedKept(s, s', a, a', t);
  }

  /** A step of the simple form that has no counterpart. */
  lemma SimQuiet(s: State, s': State, a: A.State, t: nat)
    requires Related(s, a) && OneThread(s, s', t)
    requires s'.alloc == s.alloc && s'.events == s.events && s'.writes == s.writes && s'.freed == s.freed
    requires s'.handles == s.handles && (s.aborted ==> s'.aborted)
    requires Leq(s.threads[t].clock, s'.threads[t].clock) && Leq(s.threads[t].pending, s'.threads[t].pending)
    requires SharedImage(s'.threads[t]) == SharedImage(s.threads[t])
    requires PcImage(s'.threads[t].pc) == PcImage(s.threads[t].pc)
    requires s'.threads[t].pc.Aborting? <==> s.threads[t].pc.Aborting?
    ensures Related(s', a)
  {
    assert ThreadRelated(s.threads[t], a.threads[t]);
    assert a.threads == a.threads[t := a.threads[t]];
    RelatedKept(s, s', a, a, t);
  }

  lemma SimClone(s: State, a: A.State, t: nat, h: nat, kind: Kind, pc: Pc)
    requires Related(s, a) && t < |s.threads| && h in s.threads[t].shared && !s.aborted
    requires s.threads[t].pc.Calm? || s.threads[t].pc.UpAlloc?
    requires PcImage(pc) == A.Calm && !Leaving(pc) && !pc.Aborting?
    ensures Related(WeakCloneStep(s, t, kind, pc), A.CloneStep(a, t, h))
  {
    assert ThreadRelated(s.threads[t], a.threads[t]) && MsgRelated(LastAlloc(s), A.Last(a));
    RelatedAppended(s, WeakCloneStep(s, t, kind, pc), a, A.CloneStep(a, t, h), t);
  }

  lemma SimShare(s: State, a: A.State, t: nat, h: nat)
    requires Related(s, a) && t < |s.threads| && s.threads[t].pc.Calm? && CanShare(s, h)
    ensures Related(BeginSharedStep(s, t, h), A.BeginSharedStep(a, t, h))
  {
    assert ThreadRelated(s.threads[t], a.threads[t]) && HandleRelated(s.handles[h], a.handles[h]);
    forall u: nat | u < |a.threads| ensures !A.Owns(a.threads[u].pc, h) { UsesImage(s, a, u, h); }
    RelatedKept(s, BeginSharedStep(s, t, h), a, A.BeginSharedStep(a, t, h), t);
  }

  /** The drop of a handle begins with a borrow. */
  lemma SimLeave(s: State, a: A.State, t: nat, h: nat, kind: Kind, pc: Pc)
    requires Related(s, a) && t < |s.threads| && s.threads[t].pc.Calm? && CanOwn(s, h, kind)
    requires pc == Dropping(h) || pc == DropAlloc(h)
    ensures Related(BeginOwnStep(s, t, h, kind, pc), A.BeginSharedStep(a, t, h))
  {
    assert ThreadRelated(s.threads[t], a.threads[t]) && HandleRelated(s.handles[h], a.handles[h]);
    forall u: nat | u < |a.threads| ensures !A.Owns(a.threads[u].pc, h) { UsesImage(s, a, u, h); }
    RelatedKept(s, BeginOwnStep(s, t, h, kind, pc), a, A.BeginSharedStep(a, t, h), t);
  }

  lemma SimEndShare(s: State, a: A.State, t: nat, h: nat)
    requires Related(s, a) && t < |s.threads| && s.threads[t].pc.Calm? && h in s.threads[t].shared && h < |s.handles|
    ensures Related(EndSharedStep(s, t, h), A.EndSharedStep(a, t, h))
  {
    assert ThreadRelated(s.threads[t], a.threads[t]) && HandleRelated(s.handles[h], a.handles[h]);
    RelatedKept(s, EndSharedStep(s, t, h), a, A.EndSharedStep(a, t, h), t);
  }

  /** The end of the borrow of a handle that is about to go, and the beginning of its drop. */
  function Handover(a: A.State, t: nat, h: nat): A.State
    requires t < |a.threads|
  {
    A.BeginOwnStep(A.EndSharedStep(a, t, h), t, h, A.Dropping(h))
  }

  lemma HandedOver(s: State, a: A.State, t: nat, h: nat)
    requires Related(s, a) && Borrowed(s) && t < |s.threads| && s.threads[t].pc == DropAlloc(h)
    ensures h < |a.handles|
    ensures var a' := Handover(a, t, h);
      && a' == a.(threads := a.threads[t := a'.threads[t]], handles := a.handles[h := a'.handles[h]])
      && a'.threads[t].pc == A.Dropping(h) && a'.threads[t].shared == s.threads[t].shared
      && Below(a'.threads[t].clock, s.threads[t].clock) && a'.threads[t].pending == a.threads[t].pending
      && a'.handles[h].status == Live
  {
    assert BorrowsOk(s, t) && Owns(s.threads[t].pc, h) && OwnedOk(s, t, h);
    assert ThreadRelated(s.threads[t], a.threads[t]) && HandleRelated(s.handles[h], a.handles[h]);
    var a1 := A.EndSharedStep(a, t, h);
    forall u: nat | u < |a1.threads|
      ensures !A.Uses(a1.threads[u], h)
    {
      UsesImage(s, a, u, h);
    }
    assert A.CanOwn(a1, h);
  }

  lemma SimDropAlloc(s: State, a: A.State, t: nat, h: nat)
    requires Related(s, a) && Borrowed(s) && t < |s.threads| && s.threads[t].pc == DropAlloc(h)
    ensures Related(DropAllocStep(s, t, h), A.DropStep(Handover(a, t, h), t, h))
  {
    HandedOver(s, a, t, h);
    assert ThreadRelated(s.threads[t], a.threads[t]) && MsgRelated(LastAlloc(s), A.Last(a));
    RelatedAppended(s, DropAllocStep(s, t, h), a, A.DropStep(Handover(a, t, h), t, h), t);
  }

  lemma SimFence(s: State, a: A.State, t: nat, pc: Pc)
    requires Related(s, a) && t < |s.threads|
    requires (s.threads[t].pc.FreeFence? && pc == Freeing)
             || (s.threads[t].pc.GmFence? && pc == Mutating(s.threads[t].pc.h))
    ensures Related(FenceStep(s, t, pc), A.FenceStep(a, t, PcImage(pc)))
  {
    assert ThreadRelated(s.threads[t], a.threads[t]);
    RelatedKept(s, FenceStep(s, t, pc), a, A.FenceStep(a, t, PcImage(pc)), t);
  }

  lemma SimFree(s: State, a: A.State, t: nat)
    requires Related(s, a) && t < |s.threads| && s.threads[t].pc.Freeing?
    ensures Related(FreeStep(s, t), A.FreeStep(a, t))
  {
    assert ThreadRelated(s.threads[t], a.threads[t]);
    RelatedKept(s, FreeStep(s, t), a, A.FreeStep(a, t), t);
  }

  lemma SimAsk(s: State, a: A.State, t: nat, h: nat)
    requires Related(s, a) && t < |s.threads| && s.threads[t].pc.Calm? && CanOwn(s, h, Arc)
    ensures Related(BeginOwnStep(s, t, h, Arc, GmLoad(h)), A.BeginOwnStep(a, t, h, A.GmLoad(h)))
  {
    assert ThreadRelated(s.threads[t], a.threads[t]) && HandleRelated(s.handles[h], a.handles[h]);
    forall u: nat | u < |a.threads| ensures !A.Uses(a.threads[u], h) { UsesImage(s, a, u, h); }
    RelatedKept(s, BeginOwnStep(s, t, h, Arc, GmLoad(h)), a, A.BeginOwnStep(a, t, h, A.GmLoad(h)), t);
  }

  lemma SimLoaded(s: State, a: A.State, t: nat, h: nat, i: nat)
    requires Related(s, a) && t < |s.threads| && s.threads[t].pc == GmLoad(h)
    requires s.threads[t].clock.alloc <= i < |s.alloc|
    ensures a.threads[t].clock.at <= i < |a.msgs|
    ensures Related(LoadAlloc(Touch(s, t), t, i), A.Loaded(a, t, i))
  {
    assert ThreadRelated(s.threads[t], a.threads[t]) && MsgRelated(s.alloc[i], a.msgs[i]);
    RelatedKept(s, LoadAlloc(Touch(s, t), t, i), a, A.Loaded(a, t, i), t);
  }

  lemma SimSawOne(s: State, a: A.State, t: nat, h: nat)
    requires Related(s, a) && t < |s.threads| && s.threads[t].pc == GmLoad(h)
    ensures Related(Goto(s, t, GmFence(h)), A.Put(a, t, a.threads[t].(pc := A.GmFence(h))))
  {
    assert ThreadRelated(s.threads[t], a.threads[t]);
    RelatedKept(s, Goto(s, t, GmFence(h)), a, A.Put(a, t, a.threads[t].(pc := A.GmFence(h))), t);
  }

  lemma SimEndOwn(s: State, a: A.State, t: nat, h: nat)
    requires Related(s, a) && t < |s.threads| && Asking(s.threads[t].pc) && h < |s.handles|
    ensures Related(EndOwn(s, t, h), A.EndOwn(a, t, h))
  {
    assert ThreadRelated(s.threads[t], a.threads[t]) && HandleRelated(s.handles[h], a.handles[h]);
    RelatedKept(s, EndOwn(s, t, h), a, A.EndOwn(a, t, h), t);
  }

  /** Every load that is possible here is possible there. */
  lemma SimLoad(s: State, a: A.State, t: nat, h: nat, i: nat)
    requires Related(s, a) && t < |s.threads| && s.threads[t].pc == GmLoad(h) && h < |s.handles|
    requires s.threads[t].clock.alloc <= i < |s.alloc|
    ensures a.threads[t].clock.at <= i < |a.msgs|
    ensures Related(GmLoadStep(s, t, h, i), A.GmLoadStep(a, t, h, i))
  {
    assert MsgRelated(s.alloc[i], a.msgs[i]);
    SimLoaded(s, a, t, h, i);
    var s1, a1 := LoadAlloc(Touch(s, t), t, i), A.Loaded(a, t, i);
    if s.alloc[i].value == 1 {
      SimSawOne(s1, a1, t, h);
      assert A.GmLoadStep(a, t, h, i) == A.Put(a1, t, a1.threads[t].(pc := A.GmFence(h)));
    } else {
      SimEndOwn(s1, a1, t, h);
      assert A.GmLoadStep(a, t, h, i) == A.EndOwn(a1, t, h);
    }
  }

  lemma SimWrite(s: State, a: A.State, t: nat)
    requires Related(s, a) && t < |s.threads| && s.threads[t].pc.Mutating?
    ensures Related(WriteStep(s, t), A.WriteStep(a, t))
  {
    assert ThreadRelated(s.threads[t], a.threads[t]);
    RelatedKept(s, WriteStep(s, t), a, A.WriteStep(a, t), t);
  }
}
