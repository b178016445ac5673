/** Every step of the optimised `Arc` under the weak memory model keeps the invariant. */
module OptimisedClocksSteps {
  import opened Basics
  import opened References
  import opened Sums
  import opened Usize
  import opened TwoClocks
  import opened OptimisedClocks
  import opened OptimisedClocksInv

  // ----- Steps that change only their thread -----

  /** `s'` differs from `s` in thread `t` and perhaps in one more numbered access. */
  predicate ThreadOnly(s: State, s': State, t: nat) {
    && OneThread(s, s', t)
    && s' == s.(threads := s'.threads, events := s'.events, touched := s'.touched)
  }

  lemma InvThread(s: State, s': State, t: nat)
    requires Inv(s) && ThreadOnly(s, s', t)
    requires Leq(s.threads[t].clock, s'.threads[t].clock)
    requires forall g: nat | Uses(s.threads[t], g) :: Uses(s'.threads[t], g)
    requires forall g: nat | Uses(s'.threads[t], g) ::
               Uses(s.threads[t], g) || forall u: nat | u < |s.threads| && u != t :: !Owns(s.threads[u].pc, g)
    requires Lasting(s.threads[t].pc) ==> Lasting(s'.threads[t].pc)
    requires s.threads[t].pc.Mutating? ==> s'.threads[t].pc == s.threads[t].pc
    requires ThreadOk(s', t)
    requires s'.events == s.events || (s'.events == s.events + 1 && Covered(s', s.events))
    requires s'.touched == s.touched || (s'.touched == s.touched + {s.events} && TCovered(s', s.events))
    ensures Inv(s')
  {
    var none := |s.handles|;
    OthersKept(s, s', t);
    HandlesKept(s, s', t, none);
    KeepsAllBut(s, s', t, none);
    OnesKept(s, s', none);
    CoverKept(s, s', t, none);
    TCoverKept(s, s', t, none);
  }

  /** A thread that works through a handle knows its own access. */
  lemma MineCovered(s: State, t: nat, h: nat, e: nat)
    requires s.data != [] && s.alloc != [] && t < |s.threads| && Uses(s.threads[t], h)
    requires h < |s.handles| && s.handles[h].status == Live && e in s.threads[t].clock.events
    ensures Covered(s, e) && HandleCovers(s, h, e)
  {
    var c := s.threads[t].clock;
    assert UserClock(s, t, h, c) && About(s, h, c);
    assert HandleCovers(s, h, e);
  }

  lemma TouchThread(s: State, t: nat)
    requires Inv(s) && t < |s.threads|
    ensures ThreadOk(Touch(s, t), t)
  {
    assert ThreadOk(s, t);
    var s' := Touch(s, t);
    forall h | h in s'.threads[t].shared
      ensures SharedOk(s', t, h)
    {
      assert SharedOk(s, t, h);
    }
  }

  lemma InvTouch(s: State, t: nat, h: nat)
    requires Inv(s) && t < |s.threads| && Uses(s.threads[t], h)
    ensures Inv(Touch(s, t))
  {
    var s' := Touch(s, t);
    LiveIsCounted(s, t, h);
    TouchThread(s, t);
    MineCovered(s', t, h, s.events);
    InvThread(s, s', t);
  }

  lemma InvBeginShared(s: State, t: nat, h: nat)
    requires Inv(s) && t < |s.threads| && s.threads[t].pc.Calm?
    ensures Inv(BeginSharedStep(s, t, h))
  {
    var s' := BeginSharedStep(s, t, h);
    if CanShare(s, h) {
      assert ThreadOk(s, t) && HandleOk(s, h);
      forall g | g in s'.threads[t].shared
        ensures SharedOk(s', t, g)
      {
        if g != h { assert SharedOk(s, t, g); }
      }
      InvThread(s, s', t);
    }
  }

  lemma InvBeginThrough(s: State, t: nat, h: nat, kind: Kind, pc: Pc)
    requires Inv(s) && t < |s.threads| && s.threads[t].pc.Calm?
    requires (kind == Weak && pc == UpLoad(h)) || (kind == Arc && pc == DownLoad(h))
    ensures Inv(BeginThrough(s, t, h, kind, pc))
  {
    var s' := BeginThrough(s, t, h, kind, pc);
    if s' != s {
      assert ThreadOk(s, t);
      forall g | g in s'.threads[t].shared
        ensures SharedOk(s', t, g)
      {
        assert SharedOk(s, t, g);
      }
      InvThread(s, s', t);
    }
  }

  lemma BeginOwnThread(s: State, t: nat, h: nat, kind: Kind, pc: Pc)
    requires Inv(s) && t < |s.threads| && s.threads[t].pc.Calm? && CanOwn(s, h, kind)
    requires (kind == Arc && (pc == Dropping(h) || pc == GmCas(h))) || (kind == Weak && pc == WeakDropping(h))
    ensures ThreadOk(BeginOwnStep(s, t, h, kind, pc), t)
  {
    var s' := BeginOwnStep(s, t, h, kind, pc);
    assert ThreadOk(s, t) && HandleOk(s, h) && !Uses(s.threads[t], h);
    forall g | g in s'.threads[t].shared
      ensures SharedOk(s', t, g)
    {
      assert SharedOk(s, t, g);
    }
  }

  lemma InvBeginOwn(s: State, t: nat, h: nat, kind: Kind, pc: Pc)
    requires Inv(s) && t < |s.threads| && s.threads[t].pc.Calm?
    requires (kind == Arc && (pc == Dropping(h) || pc == GmCas(h))) || (kind == Weak && pc == WeakDropping(h))
    ensures Inv(BeginOwnStep(s, t, h, kind, pc))
  {
    var s' := BeginOwnStep(s, t, h, kind, pc);
    if CanOwn(s, h, kind) {
      BeginOwnThread(s, t, h, kind, pc);
      InvThread(s, s', t);
    }
  }

  /** Every write of T happens before a borrow of any live handle. */
  lemma WritesSeen(s: State, t: nat, h: nat)
    requires Inv(s) && t < |s.threads| && Uses(s.threads[t], h)
    ensures s.writes <= s.threads[t].clock.events
  {
    LiveIsCounted(s, t, h);
    assert ThreadOk(s, t) && HandleOk(s, h);
    if h in s.threads[t].shared { assert SharedOk(s, t, h); }
    if u: nat :| IsMutating(s, u, h) {
      assert ThreadOk(s, u);
    }
  }

  lemma ReadThread(s: State, t: nat, h: nat)
    requires Inv(s) && t < |s.threads| && s.threads[t].pc.Calm?
    ensures ThreadOk(ReadStep(s, t, h), t)
  {
    TouchThread(s, t);
    var s1, s' := Touch(s, t), ReadStep(s, t, h);
    assert ThreadOk(s, t);
    if s' != s {
      forall g | g in s'.threads[t].shared
        ensures SharedOk(s', t, g)
      {
        assert SharedOk(s1, t, g);
      }
    }
  }

  lemma InvRead(s: State, t: nat, h: nat)
    requires Inv(s) && t < |s.threads| && s.threads[t].pc.Calm?
    ensures Inv(ReadStep(s, t, h))
  {
    var s' := ReadStep(s, t, h);
    if h in s.threads[t].shared && IsLive(s, h, Arc) {
      assert Uses(s.threads[t], h);
      LiveIsCounted(s, t, h);
      WritesSeen(s, t, h);
      TouchThread(s, t);
      MineCovered(s', t, h, s.events);
      assert IsLive(s', h, Arc) && HandleCovers(s', h, s.events);
      assert s'.threads == Touch(s, t).threads;
      ReadThread(s, t, h);
      InvThread(s, s', t);
    }
  }

  lemma SharedGrow(s: State, s': State, t: nat)
    requires Inv(s) && OneThread(s, s', t) && s'.handles == s.handles
    requires s'.threads[t].shared == s.threads[t].shared && Leq(s.threads[t].clock, s'.threads[t].clock)
    ensures forall g | g in s'.threads[t].shared :: SharedOk(s', t, g)
  {
    assert ThreadOk(s, t);
    forall g | g in s'.threads[t].shared
      ensures SharedOk(s', t, g)
    {
      assert SharedOk(s, t, g);
    }
  }

  lemma InvLoadsData(s: State, t: nat, i: nat)
    requires Inv(s) && t < |s.threads| && Through(s.threads[t].pc) && s.threads[t].clock.data <= i < |s.data|
    ensures Inv(LoadData(s, t, i))
  {
    var s' := LoadData(s, t, i);
    assert ThreadOk(s, t);
    SharedGrow(s, s', t);
    InvThread(s, s', t);
  }

  lemma InvLoadsAlloc(s: State, t: nat, i: nat)
    requires Inv(s) && t < |s.threads| && Through(s.threads[t].pc) && s.threads[t].clock.alloc <= i < |s.alloc|
    ensures Inv(LoadAlloc(s, t, i))
  {
    var s' := LoadAlloc(s, t, i);
    assert ThreadOk(s, t);
    SharedGrow(s, s', t);
    InvThread(s, s', t);
  }

  /** A call through a borrowed handle goes on, or is over. */
  lemma InvGoOn(s: State, t: nat, pc: Pc)
    requires Inv(s) && t < |s.threads| && Through(s.threads[t].pc)
    requires pc == Calm || (Through(pc) && pc.h == s.threads[t].pc.h)
    requires Through(pc) ==> ((pc.UpLoad? || pc.UpCas?) <==> (s.threads[t].pc.UpLoad? || s.threads[t].pc.UpCas?))
    requires (pc.UpCas? ==> pc.n > 0) && (pc.DownCas? ==> pc.n != MAX)
    ensures Inv(Goto(s, t, pc))
  {
    var s' := Goto(s, t, pc);
    assert ThreadOk(s, t);
    SharedGrow(s, s', t);
    InvThread(s, s', t);
  }

  lemma InvUpLoad(s: State, t: nat, h: nat, i: nat)
    requires Inv(s) && t < |s.threads| && (s.threads[t].pc.UpLoad? || s.threads[t].pc.UpCas?) && s.threads[t].pc.h == h
    ensures Inv(UpLoadStep(s, t, h, i))
  {
    if s.threads[t].clock.data <= i < |s.data| {
      assert ThreadOk(s, t) && Uses(s.threads[t], h);
      InvTouch(s, t, h);
      var s1 := Touch(s, t);
      var s2 := LoadData(s1, t, i);
      InvLoadsData(s1, t, i);
      InvGoOn(s2, t, UpDecide(h, s.data[i].value));
    }
  }

  lemma InvDownLoad(s: State, t: nat, h: nat, i: nat)
    requires Inv(s) && t < |s.threads|
    requires (s.threads[t].pc.DownLoad? || s.threads[t].pc.DownCas?) && s.threads[t].pc.h == h
    ensures Inv(DownLoadStep(s, t, h, i))
  {
    if s.threads[t].clock.alloc <= i < |s.alloc| {
      assert ThreadOk(s, t) && Uses(s.threads[t], h);
      InvTouch(s, t, h);
      var s1 := Touch(s, t);
      var s2 := LoadAlloc(s1, t, i);
      InvLoadsAlloc(s1, t, i);
      InvGoOn(s2, t, DownDecide(h, s.alloc[i].value));
    }
  }

  lemma InvFence(s: State, t: nat, pc: Pc)
    requires Inv(s) && t < |s.threads|
    requires (s.threads[t].pc.DropFence? && pc == DropT) || (s.threads[t].pc.FreeFence? && pc == Freeing)
             || (s.threads[t].pc.GmFence? && pc == Mutating(s.threads[t].pc.h))
    ensures Inv(FenceStep(s, t, pc))
  {
    var s' := FenceStep(s, t, pc);
    assert ThreadOk(s, t);
    if s.threads[t].pc.GmFence? {
      assert Uses(s.threads[t], s.threads[t].pc.h);
      WritesSeen(s, t, s.threads[t].pc.h);
    }
    SharedGrow(s, s', t);
    InvThread(s, s', t);
  }

  /**
   A load of get_mut that sees 1 behind the lock has read the newest message: whoever raised the count
   from an older 1 did so through the caller's handle, which the caller has seen, or through a `Weak`,
   whose drop the Acquire exchange has seen.
   */
  lemma OneIsFresh(s: State, t: nat, h: nat, i: nat)
    requires Inv(s) && t < |s.threads| && s.threads[t].pc == GmLoad(h)
    requires s.threads[t].clock.data <= i < |s.data| && s.data[i].value == 1
    ensures i == |s.data| - 1
  {
    assert Uses(s.threads[t], h);
    LiveIsCounted(s, t, h);
    assert ThreadOk(s, t) && HandleOk(s, h) && OnesSeen(s, h);
    if i < |s.data| - 1 {
      var j := i + 1;
      assert Knows(s, h, j);
      assert LastAlloc(s).clock.data < j;
      var g: nat :| Bears(s, h, g, j);
      var c: Clock :| About(s, g, c) && j <= c.data;
      if g != h {
        SumAtLeast(s.handles, g, WeakShare);
        assert false;
      }
      if u: nat :| UserClock(s, u, h, c) {
        assert false;
      }
      assert false;
    }
  }

  /** The load itself, before its result is used. */
  lemma InvLoaded(s: State, t: nat, h: nat, i: nat)
    requires Inv(s) && t < |s.threads| && s.threads[t].pc == GmLoad(h) && s.threads[t].clock.data <= i < |s.data|
    ensures Inv(LoadData(s, t, i))
  {
    var s' := LoadData(s, t, i);
    assert ThreadOk(s, t);
    SharedGrow(s, s', t);
    InvThread(s, s', t);
  }

  lemma InvSaw(s: State, t: nat, h: nat, unique: bool)
    requires Inv(s) && t < |s.threads| && s.threads[t].pc == GmLoad(h)
    requires unique ==> LastData(s).value == 1 && Leq(LastData(s).clock, Join(s.threads[t].clock, s.threads[t].pending))
    ensures Inv(Goto(s, t, GmStore(h, unique)))
  {
    var s' := Goto(s, t, GmStore(h, unique));
    assert Uses(s.threads[t], h) && ThreadOk(s, t);
    SharedGrow(s, s', t);
    InvThread(s, s', t);
  }

  lemma InvGmLoad(s: State, t: nat, h: nat, i: nat)
    requires Inv(s) && t < |s.threads| && s.threads[t].pc == GmLoad(h)
    ensures Inv(GmLoadStep(s, t, h, i))
  {
    if s.threads[t].clock.data <= i < |s.data| {
      assert Uses(s.threads[t], h);
      InvTouch(s, t, h);
      var s1 := Touch(s, t);
      InvLoaded(s1, t, h, i);
      if s.data[i].value == 1 { OneIsFresh(s1, t, h, i); }
      InvSaw(LoadData(s1, t, i), t, h, s.data[i].value == 1);
    }
  }

  // ----- Borrows that end -----

  /** Thread `t` lets go of handle `h` and leaves what it knows there. */
  lemma InvLetGo(s: State, s': State, t: nat, h: nat)
    requires Inv(s) && OneThread(s, s', t) && h < |s.handles| && s.handles[h].status == Live
    requires s' == s.(threads := s'.threads, handles := s'.handles) && |s'.handles| == |s.handles|
    requires s'.handles == s.handles[h := s.handles[h].(base := s'.handles[h].base, ended := s'.handles[h].ended)]
    requires s'.threads[t].clock == s.threads[t].clock && !Lasting(s.threads[t].pc)
    requires forall g: nat | g != h && Uses(s.threads[t], g) :: Uses(s'.threads[t], g)
    requires forall g: nat | Uses(s'.threads[t], g) :: Uses(s.threads[t], g)
    requires Serves(s, s', t, h) && Keeps(s, s', h) && HandleOk(s', h)
    requires s.threads[t].pc.Mutating? ==> s.threads[t].pc.h == h
    requires ThreadOk(s', t)
    ensures Inv(s')
  {
    var x := s'.handles[h];
    SumUpdate(s.handles, h, x, ArcShare);
    SumUpdate(s.handles, h, x, WeakShare);
    OthersKept(s, s', t);
    HandlesKept(s, s', t, h);
    KeepsAllBut(s, s', t, h);
    OnesKept(s, s', h);
    CoverKept(s, s', t, h);
    TCoverKept(s, s', t, h);
  }

  /** What a borrower has seen is handed to the handle when the borrow ends. */
  lemma EndedHeard(s: State, t: nat, h: nat, c: Clock)
    requires t < |s.threads| && h in s.threads[t].shared && About(s, h, c)
    ensures Heard(EndSharedStep(s, t, h), h, c)
  {
    var s' := EndSharedStep(s, t, h);
    var y := s'.handles[h];
    assert About(s', h, y.base) && About(s', h, y.ended);
    if u: nat :| UserClock(s, u, h, c) {
      if u == t {
        assert Leq(c, y.ended);
      } else {
        assert UserClock(s', u, h, c) && About(s', h, c);
      }
    } else {
      assert Leq(c, y.base) || Leq(c, y.ended);
    }
  }

  lemma InvEndShared(s: State, t: nat, h: nat)
    requires Inv(s) && t < |s.threads| && s.threads[t].pc.Calm?
    ensures Inv(EndSharedStep(s, t, h))
  {
    var s' := EndSharedStep(s, t, h);
    if s' != s {
      assert Uses(s.threads[t], h);
      LiveIsCounted(s, t, h);
      assert ThreadOk(s, t) && HandleOk(s, h);
      forall c: Clock | About(s, h, c)
        ensures Heard(s', h, c)
      {
        EndedHeard(s, t, h, c);
      }
      forall g | g in s'.threads[t].shared
        ensures SharedOk(s', t, g)
      {
        assert SharedOk(s, t, g);
      }
      assert HandleOk(s', h) by {
        if u: nat :| IsMutating(s, u, h) { assert IsMutating(s', u, h); }
      }
      InvLetGo(s, s', t, h);
    }
  }

  lemma InvEndOwn(s: State, t: nat, h: nat)
    requires Inv(s) && t < |s.threads| && (s.threads[t].pc == Mutating(h) || s.threads[t].pc == GmCas(h))
    ensures Inv(EndOwn(s, t, h))
  {
    var s' := EndOwn(s, t, h);
    assert Uses(s.threads[t], h);
    LiveIsCounted(s, t, h);
    WritesSeen(s, t, h);
    assert ThreadOk(s, t) && HandleOk(s, h);
    var y := s'.handles[h];
    assert About(s', h, y.base);
    forall c: Clock | About(s, h, c)
      ensures Heard(s', h, c)
    {
      assert Leq(c, y.base) by {
        if u: nat :| UserClock(s, u, h, c) { assert u == t; }
      }
    }
    forall g | g in s'.threads[t].shared
      ensures SharedOk(s', t, g)
    {
      assert SharedOk(s, t, g);
    }
    InvLetGo(s, s', t, h);
  }

  lemma InvLockFails(s: State, t: nat, h: nat, i: nat)
    requires Inv(s) && t < |s.threads| && s.threads[t].pc == GmCas(h)
    ensures Inv(LockFails(s, t, h, i))
  {
    if s.threads[t].clock.alloc <= i < |s.alloc| {
      assert Uses(s.threads[t], h);
      InvTouch(s, t, h);
      var s1 := Touch(s, t);
      var s2 := LoadAlloc(s1, t, i);
      assert ThreadOk(s1, t);
      SharedGrow(s1, s2, t);
      InvThread(s1, s2, t);
      InvEndOwn(s2, t, h);
    }
  }

  // ----- Steps that append a message -----

  /** Handle `h`, if it is one, is given up by its owner, and what is known about it is released. */
  ghost predicate GivenUp(s: State, s': State, t: nat, h: nat)
    requires t < |s.threads| && s'.data != [] && s'.alloc != []
  {
    && |s.handles| <= |s'.handles|
    && (forall g: nat | g < |s.handles| && g != h :: s'.handles[g] == s.handles[g])
    && (h < |s.handles| ==>
          && Owns(s.threads[t].pc, h) && s'.handles[h] == s.handles[h].(status := Gone)
          && Released(s, h, if s.handles[h].kind == Arc then LastData(s') else LastAlloc(s')))
  }

  /** What a step that appends a message does to its thread. */
  ghost predicate Moves(s: State, s': State, t: nat, h: nat) {
    && OneThread(s, s', t)
    && Leq(s.threads[t].clock, s'.threads[t].clock)
    && (forall g: nat | Uses(s'.threads[t], g) :: Uses(s.threads[t], g))
    && (forall g: nat | g != h && Uses(s.threads[t], g) :: Uses(s'.threads[t], g))
    && !s.threads[t].pc.Mutating?
  }

  predicate SameAccesses(s: State, s': State) {
    && s'.events == s.events && s'.touched == s.touched && s'.writes == s.writes
    && s'.dropped == s.dropped && s'.freed == s.freed && s'.bad == s.bad
  }

  predicate SameRoles(s: State, s': State, t: nat) {
    && SameForOthers(s.locker, s'.locker, t) && SameForOthers(s.last, s'.last, t) && SameForOthers(s.freer, s'.freer, t)
    && InRange(s'.locker, |s'.threads|) && InRange(s'.last, |s'.threads|) && InRange(s'.freer, |s'.threads|)
  }

  lemma CountThreads(s: State, s': State, t: nat, h: nat)
    requires Inv(s) && Moves(s, s', t, h) && SameAccesses(s, s') && SameRoles(s, s', t)
    requires |s.data| <= |s'.data| && |s.alloc| <= |s'.alloc| && GivenUp(s, s', t, h) && Undisturbed(s, s', t)
    requires ThreadOk(s', t)
    ensures forall u: nat | u < |s'.threads| :: ThreadOk(s', u)
  {
    OthersKept(s, s', t);
  }

  lemma CountCovers(s: State, s': State, t: nat, h: nat)
    requires Inv(s) && Moves(s, s', t, h) && SameAccesses(s, s')
    requires s'.data != [] && s'.alloc != [] && Grows(s, s') && GivenUp(s, s', t, h)
    requires Lasting(s.threads[t].pc) ==> Leq(s.threads[t].clock, LastAlloc(s').clock)
    ensures forall g: nat | g < |s.handles| && g != h :: Keeps(s, s', g)
    ensures forall e: nat | e < s'.events :: Covered(s', e)
    ensures forall e: nat | e in s'.touched :: TCovered(s', e)
  {
    KeepsAllBut(s, s', t, h);
    CoverKept(s, s', t, h);
    TCoverKept(s, s', t, h);
  }

  lemma InvCount(s: State, s': State, t: nat, h: nat)
    requires Inv(s) && Moves(s, s', t, h) && SameAccesses(s, s') && SameRoles(s, s', t)
    requires s'.data != [] && s'.alloc != [] && |s.data| <= |s'.data| && |s.alloc| <= |s'.alloc|
    requires Grows(s, s') && GivenUp(s, s', t, h) && Undisturbed(s, s', t)
    requires Lasting(s.threads[t].pc) ==> Leq(s.threads[t].clock, LastAlloc(s').clock)
    requires Messages(s') && Balanced(s', Arcs(s'), Weaks(s')) && ThreadOk(s', t)
    requires |s'.handles| <= |s.handles| + 1
    requires |s'.handles| == |s.handles| + 1 ==> HandleOk(s', |s.handles|)
    requires h < |s.handles| ==> HandleOk(s', h)
    requires forall g: nat | g < |s'.handles| :: OnesSeen(s', g)
    requires Arcs(s') == 0 && s'.last.Nobody? ==> Leq(LastData(s').clock, LastAlloc(s').clock)
    ensures Inv(s')
  {
    CountThreads(s, s', t, h);
    CountCovers(s, s', t, h);
    HandlesKept(s, s', t, h);
  }

  /** Who changes a count of 1 works through the only `Arc` or through a `Weak`. */
  lemma OneRaised(s: State, t: nat, x: nat, g: nat)
    requires Inv(s) && t < |s.threads| && Uses(s.threads[t], x) && LastData(s).value == 1 && IsLive(s, g, Arc)
    ensures x < |s.handles| && (x == g || IsLive(s, x, Weak))
  {
    LiveIsCounted(s, t, x);
    if s.handles[x].kind == Arc && x != g {
      SumAtLeastTwo(s.handles, if g < x then g else x, if g < x then x else g, ArcShare);
    }
  }

  // ----- The first counter -----

  /** A read-modify-write of the first counter by `t` through `x` appends a message. */
  lemma OnesAppended(s: State, s': State, t: nat, x: nat)
    requires Inv(s) && OneThread(s, s', t) && s'.alloc == s.alloc
    requires Uses(s.threads[t], x) && x < |s.handles| <= |s'.handles|
    requires |s'.data| == |s.data| + 1 && s'.data[..|s.data|] == s.data && s'.threads[t].clock.data == |s.data|
    requires forall g: nat | g < |s.handles| && g != x :: Keeps(s, s', g) && s'.handles[g] == s.handles[g]
    requires (Keeps(s, s', x) && Uses(s'.threads[t], x) && s'.handles[x] == s.handles[x])
             || (s.handles[x].kind == Arc && s'.handles[x].status == Gone)
    ensures forall g: nat | g < |s.handles| :: OnesSeen(s', g)
  {
    var n := |s.data|;
    LiveIsCounted(s, t, x);
    forall g: nat | g < |s.handles| && IsLive(s', g, Arc)
      ensures OnesSeen(s', g)
    {
      assert OnesSeen(s, g);
      forall i: nat | s'.handles[g].birth <= i < |s'.data| - 1 && s'.data[i].value == 1
        ensures Knows(s', g, i + 1)
      {
        assert s'.data[i] == s.data[i];
        if i < n - 1 {
          KnowsKept(s, s', x, g, i + 1);
        } else {
          OneRaised(s, t, x, g);
          var c := s'.threads[t].clock;
          assert UserClock(s', t, x, c) && About(s', x, c);
          assert Bears(s', g, x, n);
        }
      }
    }
  }

  /** Nobody else rests on the newest message of the first counter. */
  lemma DataFree(s: State, t: nat, x: nat)
    requires Inv(s) && t < |s.threads| && Uses(s.threads[t], x) && LastData(s).value > 0
    ensures forall u: nat | u < |s.threads| && u != t :: !Alone(s.threads[u].pc) && !Lasting(s.threads[u].pc)
  {
    NobodyAlone(s, t, x);
    forall u: nat | u < |s.threads| && u != t
      ensures !Alone(s.threads[u].pc) && !Lasting(s.threads[u].pc)
    {
      assert ThreadOk(s, u);
    }
  }

  /** A new `Arc`, counted through `x`. */
  function Raised(s: State, t: nat, doomed: bool): State
    requires t < |s.threads| && s.data != []
  {
    AddHandle(ChangeData(s, t, LastData(s).value + 1, false), t, Arc, doomed)
  }

  lemma RaisedThread(s: State, t: nat, x: nat, doomed: bool)
    requires Inv(s) && t < |s.threads| && x in s.threads[t].shared && LastData(s).value > 0
    requires s.threads[t].pc.Calm? || Through(s.threads[t].pc)
    ensures ThreadOk(Raised(s, t, doomed), t)
  {
    var s' := Raised(s, t, doomed);
    assert ThreadOk(s, t) && WithinClock(LastData(s).clock, |s.data|, |s.alloc|);
    forall g | g in s'.threads[t].shared
      ensures SharedOk(s', t, g)
    {
      assert SharedOk(s, t, g);
      assert HandleOk(s, g);
    }
  }

  lemma RaisedOnes(s: State, t: nat, x: nat, doomed: bool)
    requires Inv(s) && t < |s.threads| && x in s.threads[t].shared && LastData(s).value > 0
    requires s.threads[t].pc.Calm? || Through(s.threads[t].pc)
    ensures var s' := Raised(s, t, doomed); forall g: nat | g < |s'.handles| :: OnesSeen(s', g)
  {
    var s' := Raised(s, t, doomed);
    assert Uses(s.threads[t], x) && ThreadOk(s, t);
    LiveIsCounted(s, t, x);
    KeepsAllBut(s, s', t, |s.handles|);
    OnesAppended(s, s', t, x);
    assert OnesSeen(s', |s.handles|);
  }

  lemma RaisedBalanced(s: State, t: nat, x: nat, doomed: bool)
    requires Inv(s) && t < |s.threads| && Uses(s.threads[t], x) && LastData(s).value > 0
    ensures var s' := Raised(s, t, doomed);
      Balanced(s', Arcs(s'), Weaks(s')) && Arcs(s') == Arcs(s) + 1 && Weaks(s') == Weaks(s)
  {
    var s' := Raised(s, t, doomed);
    SumAppend(s.handles, s'.handles[|s.handles|], ArcShare);
    SumAppend(s.handles, s'.handles[|s.handles|], WeakShare);
  }

  lemma InvRaise(s: State, t: nat, x: nat, doomed: bool)
    requires Inv(s) && t < |s.threads| && x in s.threads[t].shared && LastData(s).value > 0
    requires s.threads[t].pc.Calm? || Through(s.threads[t].pc)
    ensures Inv(Raised(s, t, doomed))
  {
    var s' := Raised(s, t, doomed);
    var none := |s.handles|;
    assert Uses(s.threads[t], x) && ThreadOk(s, t);
    DataFree(s, t, x);
    WritesSeen(s, t, x);
    RaisedThread(s, t, x, doomed);
    RaisedOnes(s, t, x, doomed);
    RaisedBalanced(s, t, x, doomed);
    InvCount(s, s', t, none);
  }

  /** `h` is given up: the first counter goes down. */
  function Lowered(s: State, t: nat, h: nat): State
    requires t < |s.threads| && s.data != [] && h < |s.handles| && LastData(s).value > 0
  {
    var n := LastData(s).value;
    PutHandle(Goto(ChangeData(s, t, n - 1, true), t, if n == 1 then DropFence else Calm), h,
              s.handles[h].(status := Gone))
    .(last := if n == 1 then By(t) else s.last)
  }

  /** What is known about a handle that `t` has to itself is known to `t`. */
  lemma OwnerKnows(s: State, t: nat, h: nat, c: Clock)
    requires Inv(s) && t < |s.threads| && Owns(s.threads[t].pc, h) && About(s, h, c)
    ensures Leq(c, s.threads[t].clock)
  {
    assert ThreadOk(s, t);
    if u: nat :| UserClock(s, u, h, c) { assert u == t; }
  }

  /** An `Arc` that is dropped as the last one is not that of a locker. */
  lemma NoLocker(s: State, t: nat, h: nat)
    requires Inv(s) && t < |s.threads| && s.threads[t].pc == Dropping(h) && s.locker.By?
    ensures LastData(s).value >= 2
  {
    var u := s.locker.t;
    assert ThreadOk(s, u) && ThreadOk(s, t) && Uses(s.threads[t], h) && Uses(s.threads[u], s.threads[u].pc.h);
    var g := s.threads[u].pc.h;
    Apart(s, t, h, u, g);
    LiveIsCounted(s, u, g);
    SumAtLeastTwo(s.handles, if g < h then g else h, if g < h then h else g, ArcShare);
  }

  lemma LoweredBalanced(s: State, t: nat, h: nat)
    requires Inv(s) && t < |s.threads| && s.threads[t].pc == Dropping(h)
    ensures h < |s.handles| && LastData(s).value > 0
    ensures var s' := Lowered(s, t, h);
      Balanced(s', Arcs(s'), Weaks(s')) && Arcs(s') == Arcs(s) - 1 && Weaks(s') == Weaks(s)
  {
    assert Uses(s.threads[t], h) && ThreadOk(s, t);
    LiveIsCounted(s, t, h);
    if s.locker.By? { NoLocker(s, t, h); }
    var s' := Lowered(s, t, h);
    SumUpdate(s.handles, h, s'.handles[h], ArcShare);
    SumUpdate(s.handles, h, s'.handles[h], WeakShare);
  }

  lemma LoweredThread(s: State, t: nat, h: nat)
    requires Inv(s) && t < |s.threads| && s.threads[t].pc == Dropping(h) && h < |s.handles| && LastData(s).value > 0
    ensures ThreadOk(Lowered(s, t, h), t)
  {
    var s' := Lowered(s, t, h);
    assert Uses(s.threads[t], h);
    LiveIsCounted(s, t, h);
    assert ThreadOk(s, t) && WithinClock(LastData(s).clock, |s.data|, |s.alloc|);
    forall g | g in s'.threads[t].shared
      ensures SharedOk(s', t, g)
    {
      assert SharedOk(s, t, g);
      assert HandleOk(s, g);
    }
  }

  lemma LoweredReleases(s: State, t: nat, h: nat)
    requires Inv(s) && t < |s.threads| && s.threads[t].pc == Dropping(h) && h < |s.handles| && LastData(s).value > 0
    ensures Released(s, h, LastData(Lowered(s, t, h)))
  {
    forall c: Clock | About(s, h, c)
      ensures Leq(c, LastData(Lowered(s, t, h)).clock)
    {
      assert ThreadOk(s, t);
      OwnerKnows(s, t, h, c);
    }
  }

  lemma LoweredOnes(s: State, t: nat, h: nat)
    requires Inv(s) && t < |s.threads| && s.threads[t].pc == Dropping(h) && h < |s.handles| && LastData(s).value > 0
    ensures var s' := Lowered(s, t, h); forall g: nat | g < |s'.handles| :: OnesSeen(s', g)
  {
    var s' := Lowered(s, t, h);
    assert Uses(s.threads[t], h) && ThreadOk(s, t);
    KeepsAllBut(s, s', t, h);
    OnesAppended(s, s', t, h);
  }

  lemma InvLower(s: State, t: nat, h: nat)
    requires Inv(s) && t < |s.threads| && s.threads[t].pc == Dropping(h)
    ensures h < |s.handles| && LastData(s).value > 0 && Inv(Lowered(s, t, h))
  {
    LoweredBalanced(s, t, h);
    LoweredThread(s, t, h);
    LoweredReleases(s, t, h);
    LoweredOnes(s, t, h);
    assert Uses(s.threads[t], h) && ThreadOk(s, t) && HandleOk(s, h);
    LiveIsCounted(s, t, h);
    DataFree(s, t, h);
    InvCount(s, Lowered(s, t, h), t, h);
  }

  // ----- The second counter -----

  /** Nobody else rests on the newest message of the second counter. */
  lemma AllocFree(s: State, t: nat, x: nat)
    requires Inv(s) && t < |s.threads| && Uses(s.threads[t], x) && (s.locker.Nobody? || s.locker == By(t))
    ensures forall u: nat | u < |s.threads| && u != t ::
      !Locking(s.threads[u].pc) && !Alone(s.threads[u].pc) && !Ending(s.threads[u].pc)
  {
    NobodyAlone(s, t, x);
    forall u: nat | u < |s.threads| && u != t
      ensures !Locking(s.threads[u].pc) && !Alone(s.threads[u].pc) && !Ending(s.threads[u].pc)
    {
      assert ThreadOk(s, u);
    }
  }

  /** A new `Weak`. */
  function AddedWeak(s: State, t: nat, acquire: bool, doomed: bool): State
    requires t < |s.threads| && s.alloc != []
  {
    AddHandle(ChangeAlloc(s, t, LastAlloc(s).value + 1, acquire, false), t, Weak, doomed)
  }

  lemma AddedWeakThread(s: State, t: nat, x: nat, acquire: bool, doomed: bool)
    requires Inv(s) && t < |s.threads| && x in s.threads[t].shared
    requires s.threads[t].pc.Calm? || Through(s.threads[t].pc)
    ensures ThreadOk(AddedWeak(s, t, acquire, doomed), t)
  {
    var s' := AddedWeak(s, t, acquire, doomed);
    assert ThreadOk(s, t) && WithinClock(LastAlloc(s).clock, |s.data|, |s.alloc|);
    forall g | g in s'.threads[t].shared
      ensures SharedOk(s', t, g)
    {
      assert SharedOk(s, t, g);
      assert HandleOk(s, g);
    }
  }

  lemma AddedWeakOnes(s: State, t: nat, x: nat, acquire: bool, doomed: bool)
    requires Inv(s) && t < |s.threads| && x in s.threads[t].shared
    requires s.threads[t].pc.Calm? || Through(s.threads[t].pc)
    ensures var s' := AddedWeak(s, t, acquire, doomed); forall g: nat | g < |s'.handles| :: OnesSeen(s', g)
  {
    var s' := AddedWeak(s, t, acquire, doomed);
    assert ThreadOk(s, t);
    KeepsAllBut(s, s', t, |s.handles|);
    OnesKept(s, s', |s.handles|);
  }

  lemma AddedWeakBalanced(s: State, t: nat, x: nat, acquire: bool, doomed: bool)
    requires Inv(s) && t < |s.threads| && Uses(s.threads[t], x) && s.locker.Nobody?
    ensures var s' := AddedWeak(s, t, acquire, doomed);
      Balanced(s', Arcs(s'), Weaks(s')) && Arcs(s') == Arcs(s) && Weaks(s') == Weaks(s) + 1
  {
    var s' := AddedWeak(s, t, acquire, doomed);
    LiveIsCounted(s, t, x);
    SumAppend(s.handles, s'.handles[|s.handles|], ArcShare);
    SumAppend(s.handles, s'.handles[|s.handles|], WeakShare);
  }

  lemma InvAddWeak(s: State, t: nat, x: nat, acquire: bool, doomed: bool)
    requires Inv(s) && t < |s.threads| && x in s.threads[t].shared && s.locker.Nobody?
    requires s.threads[t].pc.Calm? || Through(s.threads[t].pc)
    ensures Inv(AddedWeak(s, t, acquire, doomed))
  {
    var s' := AddedWeak(s, t, acquire, doomed);
    var none := |s.handles|;
    assert Uses(s.threads[t], x) && ThreadOk(s, t);
    LiveIsCounted(s, t, x);
    AllocFree(s, t, x);
    WritesSeen(s, t, x);
    AddedWeakThread(s, t, x, acquire, doomed);
    AddedWeakOnes(s, t, x, acquire, doomed);
    AddedWeakBalanced(s, t, x, acquire, doomed);
    InvCount(s, s', t, none);
  }

  /** The second counter goes down by the `Weak` `h`. */
  function WeakLowered(s: State, t: nat, h: nat): State
    requires t < |s.threads| && s.alloc != [] && h < |s.handles| && LastAlloc(s).value > 0
  {
    var n := LastAlloc(s).value;
    PutHandle(Goto(ChangeAlloc(s, t, n - 1, false, true), t, if n == 1 then FreeFence else Calm), h,
              s.handles[h].(status := Gone))
    .(freer := if n == 1 then By(t) else s.freer)
  }

  lemma WeakLoweredBalanced(s: State, t: nat, h: nat)
    requires Inv(s) && t < |s.threads| && s.threads[t].pc == WeakDropping(h)
    ensures h < |s.handles| && LastAlloc(s).value > 0
    ensures var s' := WeakLowered(s, t, h);
      Balanced(s', Arcs(s'), Weaks(s')) && Arcs(s') == Arcs(s) && Weaks(s') == Weaks(s) - 1
  {
    assert Uses(s.threads[t], h) && ThreadOk(s, t);
    LiveIsCounted(s, t, h);
    var s' := WeakLowered(s, t, h);
    SumUpdate(s.handles, h, s'.handles[h], ArcShare);
    SumUpdate(s.handles, h, s'.handles[h], WeakShare);
  }

  lemma WeakLoweredThread(s: State, t: nat, h: nat)
    requires Inv(s) && t < |s.threads| && s.threads[t].pc == WeakDropping(h)
    requires h < |s.handles| && LastAlloc(s).value > 0
    ensures ThreadOk(WeakLowered(s, t, h), t)
  {
    var s' := WeakLowered(s, t, h);
    assert Uses(s.threads[t], h);
    LiveIsCounted(s, t, h);
    assert ThreadOk(s, t) && WithinClock(LastAlloc(s).clock, |s.data|, |s.alloc|);
    forall g | g in s'.threads[t].shared
      ensures SharedOk(s', t, g)
    {
      assert SharedOk(s, t, g);
      assert HandleOk(s, g);
    }
  }

  lemma WeakLoweredReleases(s: State, t: nat, h: nat)
    requires Inv(s) && t < |s.threads| && s.threads[t].pc == WeakDropping(h)
    requires h < |s.handles| && LastAlloc(s).value > 0
    ensures Released(s, h, LastAlloc(WeakLowered(s, t, h)))
  {
    forall c: Clock | About(s, h, c)
      ensures Leq(c, LastAlloc(WeakLowered(s, t, h)).clock)
    {
      assert ThreadOk(s, t);
      OwnerKnows(s, t, h, c);
    }
  }

  lemma WeakLoweredOnes(s: State, t: nat, h: nat)
    requires Inv(s) && t < |s.threads| && s.threads[t].pc == WeakDropping(h)
    requires h < |s.handles| && LastAlloc(s).value > 0
    ensures var s' := WeakLowered(s, t, h); forall g: nat | g < |s'.handles| :: OnesSeen(s', g)
  {
    var s' := WeakLowered(s, t, h);
    assert ThreadOk(s, t);
    KeepsAllBut(s, s', t, h);
    WeakLoweredReleases(s, t, h);
    OnesKept(s, s', h);
  }

  lemma InvWeakLower(s: State, t: nat, h: nat)
    requires Inv(s) && t < |s.threads| && s.threads[t].pc == WeakDropping(h)
    ensures h < |s.handles| && LastAlloc(s).value > 0 && Inv(WeakLowered(s, t, h))
  {
    WeakLoweredBalanced(s, t, h);
    WeakLoweredThread(s, t, h);
    WeakLoweredReleases(s, t, h);
    WeakLoweredOnes(s, t, h);
    assert Uses(s.threads[t], h) && ThreadOk(s, t) && HandleOk(s, h);
    LiveIsCounted(s, t, h);
    AllocFree(s, t, h);
    InvCount(s, WeakLowered(s, t, h), t, h);
  }

  /** The last dropper gives up the weak reference shared by all `Arc`s. */
  function ImplicitLowered(s: State, t: nat): State
    requires t < |s.threads| && s.alloc != [] && LastAlloc(s).value > 0
  {
    var n := LastAlloc(s).value;
    Goto(ChangeAlloc(s, t, n - 1, false, true), t, if n == 1 then FreeFence else Calm)
    .(freer := if n == 1 then By(t) else s.freer, last := Nobody)
  }

  /** A step that changes neither the first counter nor a handle. */
  lemma SameOnes(s: State, s': State, t: nat)
    requires Inv(s) && OneThread(s, s', t) && s'.data == s.data && s'.handles == s.handles
    requires s'.alloc != [] && Leq(LastAlloc(s).clock, LastAlloc(s').clock)
    requires Leq(s.threads[t].clock, s'.threads[t].clock)
    requires forall g: nat | Uses(s.threads[t], g) :: Uses(s'.threads[t], g)
    ensures forall g: nat | g < |s'.handles| :: OnesSeen(s', g)
  {
    KeepsAllBut(s, s', t, |s.handles|);
    OnesKept(s, s', |s.handles|);
  }

  lemma ImplicitThread(s: State, t: nat)
    requires Inv(s) && t < |s.threads| && s.threads[t].pc.DropImplicit? && LastAlloc(s).value > 0
    ensures ThreadOk(ImplicitLowered(s, t), t)
  {
    assert ThreadOk(s, t) && WithinClock(LastAlloc(s).clock, |s.data|, |s.alloc|);
    var s' := ImplicitLowered(s, t);
    forall g | g in s'.threads[t].shared
      ensures SharedOk(s', t, g)
    {
      assert SharedOk(s, t, g);
      assert HandleOk(s, g);
    }
  }

  lemma InvImplicit(s: State, t: nat)
    requires Inv(s) && t < |s.threads| && s.threads[t].pc.DropImplicit?
    ensures LastAlloc(s).value > 0 && Inv(ImplicitLowered(s, t))
  {
    assert ThreadOk(s, t);
    var s' := ImplicitLowered(s, t);
    ImplicitThread(s, t);
    SameOnes(s, s', t);
    forall u: nat | u < |s.threads| && u != t
      ensures !Locking(s.threads[u].pc) && !Alone(s.threads[u].pc) && !Ending(s.threads[u].pc)
    {
      assert ThreadOk(s, u);
    }
    InvCount(s, s', t, |s.handles|);
  }

  function Locked(s: State, t: nat, h: nat): State
    requires t < |s.threads| && s.alloc != []
  {
    Goto(ChangeAlloc(s, t, MAX, true, false), t, GmLoad(h)).(locker := By(t))
  }

  lemma LockedThread(s: State, t: nat, h: nat)
    requires Inv(s) && t < |s.threads| && s.threads[t].pc == GmCas(h) && s.locker.Nobody?
    ensures ThreadOk(Locked(s, t, h), t)
  {
    var s' := Locked(s, t, h);
    assert ThreadOk(s, t) && WithinClock(LastAlloc(s).clock, |s.data|, |s.alloc|) && HandleOk(s, h);
    forall g | g in s'.threads[t].shared
      ensures SharedOk(s', t, g)
    {
      assert SharedOk(s, t, g);
      assert HandleOk(s, g);
    }
  }

  lemma InvLock(s: State, t: nat, h: nat)
    requires Inv(s) && Bounded(s) && t < |s.threads| && s.threads[t].pc == GmCas(h) && LastAlloc(s).value == 1
    ensures Inv(Locked(s, t, h))
  {
    var s' := Locked(s, t, h);
    assert Uses(s.threads[t], h) && ThreadOk(s, t);
    LiveIsCounted(s, t, h);
    AllocFree(s, t, h);
    LockedThread(s, t, h);
    SameOnes(s, s', t);
    InvCount(s, s', t, |s.handles|);
  }

  /** The store unlocks the second counter; the caller still has its handle to itself. */
  lemma InvStore(s: State, t: nat, h: nat, pc: Pc)
    requires Inv(s) && t < |s.threads| && s.threads[t].pc.GmStore? && s.threads[t].pc.h == h
    requires pc == GmCas(h) || (s.threads[t].pc.unique && pc == GmFence(h))
    ensures Inv(Goto(StoreAlloc(s, t), t, pc))
  {
    var s' := Goto(StoreAlloc(s, t), t, pc);
    assert Uses(s.threads[t], h) && ThreadOk(s, t) && HandleOk(s, h);
    LiveIsCounted(s, t, h);
    AllocFree(s, t, h);
    forall g | g in s'.threads[t].shared
      ensures SharedOk(s', t, g)
    {
      assert SharedOk(s, t, g);
      assert HandleOk(s, g);
    }
    SameOnes(s, s', t);
    InvCount(s, s', t, |s.handles|);
  }

  lemma InvStoreAndEnd(s: State, t: nat, h: nat)
    requires Inv(s) && t < |s.threads| && s.threads[t].pc.GmStore? && s.threads[t].pc.h == h
    ensures Inv(EndOwn(StoreAlloc(s, t), t, h))
  {
    var s2 := Goto(StoreAlloc(s, t), t, GmCas(h));
    InvStore(s, t, h, GmCas(h));
    InvEndOwn(s2, t, h);
    assert h < |s.handles| by {
      assert Uses(s.threads[t], h);
      LiveIsCounted(s, t, h);
    }
    assert EndOwn(s2, t, h).threads == EndOwn(StoreAlloc(s, t), t, h).threads;
    assert EndOwn(s2, t, h) == EndOwn(StoreAlloc(s, t), t, h);
  }

  lemma InvGmStore(s: State, t: nat, h: nat, unique: bool)
    requires Inv(s) && t < |s.threads| && s.threads[t].pc == GmStore(h, unique)
    ensures Inv(GmStoreStep(s, t, h, unique))
  {
    assert Uses(s.threads[t], h);
    InvTouch(s, t, h);
    if unique {
      InvStore(Touch(s, t), t, h, GmFence(h));
    } else {
      InvStoreAndEnd(Touch(s, t), t, h);
    }
  }
}
