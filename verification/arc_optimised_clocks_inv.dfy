/** What every step of the optimised `Arc` under the weak memory model keeps. */
module OptimisedClocksInv {
  import opened Basics
  import opened References
  import opened Sums
  import opened Usize
  import opened TwoClocks
  import opened OptimisedClocks

  // ----- Counting -----

  function ArcShare(x: Handle): nat {
    if x.kind == Arc && x.status != Gone then 1 else 0
  }

  function WeakShare(x: Handle): nat {
    if x.kind == Weak && x.status != Gone then 1 else 0
  }

  ghost function Arcs(s: State): nat {
    Sum(s.handles, ArcShare)
  }

  ghost function Weaks(s: State): nat {
    Sum(s.handles, WeakShare)
  }

  /** The hypothesis on the program: outstanding handles stay below `usize::MAX - 1`. */
  ghost predicate Bounded(s: State) {
    Arcs(s) + Weaks(s) < MAX - 1
  }

  predicate Balanced(s: State, arcs: nat, weaks: nat)
    requires s.data != [] && s.alloc != []
  {
    && LastData(s).value == arcs
    && (s.last.By? ==> arcs == 0)
    && (s.locker.By? ==> arcs > 0 && weaks == 0)
    && LastAlloc(s).value == (if s.locker.By? then MAX else weaks + One(arcs > 0) + One(s.last.By?))
    && s.dropped == (if arcs > 0 then 0 else if s.last.By? then s.dropped else 1)
    && s.dropped <= 1
    && s.freed + One(s.freer.By?) + One(weaks > 0 || arcs > 0 || s.last.By?) == 1
  }

  // ----- Threads and handles -----

  /** get_mut has seen that the handle is the only one. */
  predicate Alone(pc: Pc) {
    (pc.GmStore? && pc.unique) || pc.GmFence? || pc.Mutating?
  }

  predicate Locking(pc: Pc) {
    pc.GmLoad? || pc.GmStore?
  }

  predicate Lasting(pc: Pc) {
    pc.DropFence? || pc.DropT? || pc.DropImplicit?
  }

  predicate Ending(pc: Pc) {
    pc.FreeFence? || pc.Freeing?
  }

  predicate Within(s: State, t: nat)
    requires t < |s.threads|
  {
    WithinClock(s.threads[t].clock, |s.data|, |s.alloc|) && WithinClock(s.threads[t].pending, |s.data|, |s.alloc|)
  }

  predicate SharedOk(s: State, t: nat, h: nat)
    requires t < |s.threads|
  {
    h < |s.handles| && s.handles[h].status == Live && Leq(s.handles[h].base, s.threads[t].clock)
  }

  predicate OwnedOk(s: State, t: nat, h: nat, kind: Kind)
    requires t < |s.threads|
  {
    && IsLive(s, h, kind)
    && Leq(s.handles[h].base, s.threads[t].clock) && Leq(s.handles[h].ended, s.threads[t].clock)
    && h !in s.threads[t].shared
    && forall u: nat | u < |s.threads| && u != t :: !Uses(s.threads[u], h)
  }

  predicate BorrowsOk(s: State, t: nat)
    requires t < |s.threads|
  {
    var th := s.threads[t];
    && (forall h | h in th.shared :: SharedOk(s, t, h))
    && (Owning(th.pc) ==> OwnedOk(s, t, th.pc.h, if th.pc.WeakDropping? then Weak else Arc))
    && (Through(th.pc) ==>
          th.pc.h in th.shared && IsLive(s, th.pc.h, if th.pc.UpLoad? || th.pc.UpCas? then Weak else Arc))
  }

  predicate RolesOk(s: State, t: nat)
    requires t < |s.threads|
  {
    var pc := s.threads[t].pc;
    && (s.locker == By(t) <==> Locking(pc))
    && (s.last == By(t) <==> Lasting(pc))
    && (s.freer == By(t) <==> Ending(pc))
    && (pc.DropFence? || pc.DropT? <==> s.last == By(t) && s.dropped == 0)
    && (pc.UpCas? ==> pc.n > 0)
    && (pc.DownCas? ==> pc.n != MAX)
  }

  /** What a thread in a decisive phase knows. */
  ghost predicate KnowsOk(s: State, t: nat)
    requires t < |s.threads| && s.data != [] && s.alloc != []
  {
    var th := s.threads[t];
    && (Locking(th.pc) || Alone(th.pc) || th.pc.Freeing? ==> Leq(LastAlloc(s).clock, th.clock))
    && (Alone(th.pc) ==> Arcs(s) == 1 && Weaks(s) == 0)
    && (Alone(th.pc) || th.pc.DropFence? ==> Leq(LastData(s).clock, Join(th.clock, th.pending)))
    && (th.pc.Mutating? ==> s.writes <= th.clock.events)
    && (th.pc.Mutating? || th.pc.DropT? || th.pc.DropImplicit? ==> Leq(LastData(s).clock, th.clock))
    && (th.pc.FreeFence? ==> Leq(LastAlloc(s).clock, Join(th.clock, th.pending)))
  }

  ghost predicate ThreadOk(s: State, t: nat)
    requires t < |s.threads| && s.data != [] && s.alloc != []
  {
    Within(s, t) && BorrowsOk(s, t) && RolesOk(s, t) && KnowsOk(s, t)
  }

  ghost predicate IsMutating(s: State, t: nat, h: nat) {
    t < |s.threads| && s.threads[t].pc == Mutating(h)
  }

  ghost predicate HandleOk(s: State, h: nat)
    requires h < |s.handles|
  {
    var x := s.handles[h];
    && WithinClock(x.base, |s.data|, |s.alloc|) && WithinClock(x.ended, |s.data|, |s.alloc|)
    && (x.status == Live ==>
          && (x.kind == Arc ==> x.birth <= x.base.data)
          && (s.writes <= x.base.events || exists t: nat :: IsMutating(s, t, h)))
  }

  // ----- Who knows what -----

  ghost predicate UserClock(s: State, t: nat, h: nat, c: Clock) {
    t < |s.threads| && Uses(s.threads[t], h) && c == s.threads[t].clock
  }

  /** `c` is a clock that whoever comes to own the live handle `h` will have. */
  ghost predicate About(s: State, h: nat, c: Clock) {
    && h < |s.handles| && s.handles[h].status == Live
    && (c == s.handles[h].base || c == s.handles[h].ended || exists t: nat :: UserClock(s, t, h, c))
  }

  ghost predicate Heard(s: State, h: nat, c: Clock) {
    exists c': Clock :: About(s, h, c') && Leq(c, c')
  }

  /** Nothing known about `h` is forgotten. */
  ghost predicate Keeps(s: State, s': State, h: nat) {
    forall c: Clock | About(s, h, c) :: Heard(s', h, c)
  }

  ghost predicate HandleCovers(s: State, h: nat, e: nat) {
    exists c: Clock :: About(s, h, c) && e in c.events
  }

  ghost predicate LastCovers(s: State, t: nat, e: nat) {
    t < |s.threads| && Lasting(s.threads[t].pc) && e in s.threads[t].clock.events
  }

  /** Access `e` is known to a newest message, about a live handle or to the dropper of T. */
  ghost predicate Covered(s: State, e: nat)
    requires s.data != [] && s.alloc != []
  {
    || e in LastData(s).clock.events
    || e in LastAlloc(s).clock.events
    || (exists h: nat :: HandleCovers(s, h, e))
    || (exists t: nat :: LastCovers(s, t, e))
  }

  /** Access `e` to T is known to the newest message of the first counter or about a live `Arc`. */
  ghost predicate TCovered(s: State, e: nat)
    requires s.data != []
  {
    e in LastData(s).clock.events || exists h: nat :: IsLive(s, h, Arc) && HandleCovers(s, h, e)
  }

  /** Message `j` of the first counter is known about `g`, which is `h` or a `Weak`. */
  ghost predicate Bears(s: State, h: nat, g: nat, j: nat) {
    (g == h || IsLive(s, g, Weak)) && exists c: Clock :: About(s, g, c) && j <= c.data
  }

  /** Whoever locks the second counter through `h` has seen message `j` of the first. */
  ghost predicate Knows(s: State, h: nat, j: nat)
    requires s.alloc != []
  {
    j <= LastAlloc(s).clock.data || exists g: nat :: Bears(s, h, g, j)
  }

  ghost predicate OnesSeen(s: State, h: nat)
    requires s.alloc != []
  {
    IsLive(s, h, Arc) ==>
      forall i: nat | s.handles[h].birth <= i < |s.data| - 1 && s.data[i].value == 1 :: Knows(s, h, i + 1)
  }

  ghost predicate Messages(s: State) {
    && (forall i | 0 <= i < |s.data| :: WithinClock(s.data[i].clock, |s.data|, |s.alloc|))
    && (forall i | 0 <= i < |s.alloc| :: WithinClock(s.alloc[i].clock, |s.data|, |s.alloc|))
  }

  ghost predicate Inv(s: State) {
    && s.data != [] && s.alloc != []
    && Balanced(s, Arcs(s), Weaks(s))
    && !s.bad
    && Messages(s)
    && (forall t: nat | t < |s.threads| :: ThreadOk(s, t))
    && (forall h: nat | h < |s.handles| :: HandleOk(s, h))
    && (forall h: nat | h < |s.handles| :: OnesSeen(s, h))
    && (forall e: nat | e < s.events :: Covered(s, e))
    && (forall e: nat | e in s.touched :: TCovered(s, e))
    && s.writes <= s.touched
    && (Arcs(s) == 0 && s.last.Nobody? ==> Leq(LastData(s).clock, LastAlloc(s).clock))
    && InRange(s.locker, |s.threads|) && InRange(s.last, |s.threads|) && InRange(s.freer, |s.threads|)
  }

  lemma InitInv(n: nat)
    ensures Inv(Init(n))
  {
    var s := Init(n);
    assert s.handles == [] + [s.handles[0]];
    SumAppend([], s.handles[0], ArcShare);
    SumAppend([], s.handles[0], WeakShare);
    assert About(s, 0, s.handles[0].base);
    assert HandleCovers(s, 0, 0);
  }

  // ----- Consequences -----

  /** While a thread works through a handle, the block exists, and T too if it is an `Arc`. */
  lemma LiveIsCounted(s: State, t: nat, h: nat)
    requires Inv(s) && t < |s.threads| && Uses(s.threads[t], h)
    ensures h < |s.handles| && s.handles[h].status == Live
    ensures s.freed == 0 && s.freer.Nobody?
    ensures s.handles[h].kind == Arc ==> Arcs(s) >= 1 && s.dropped == 0 && s.last.Nobody?
    ensures s.handles[h].kind == Weak ==> Weaks(s) >= 1 && s.locker.Nobody?
  {
    assert ThreadOk(s, t);
    if h in s.threads[t].shared { assert SharedOk(s, t, h); }
    SumAtLeast(s.handles, h, ArcShare);
    SumAtLeast(s.handles, h, WeakShare);
  }

  /** Two threads that work through handles of which one is exclusive work through different ones. */
  lemma Apart(s: State, t: nat, h: nat, u: nat, g: nat)
    requires Inv(s) && t < |s.threads| && u < |s.threads| && t != u
    requires Owns(s.threads[u].pc, g) && Uses(s.threads[t], h)
    ensures g != h
  {
    assert ThreadOk(s, u);
  }

  /** While `t` works through a handle nobody else is alone or about to free the block. */
  lemma NobodyAlone(s: State, t: nat, h: nat)
    requires Inv(s) && t < |s.threads| && Uses(s.threads[t], h)
    ensures forall u: nat | u < |s.threads| && u != t :: !Alone(s.threads[u].pc) && !Ending(s.threads[u].pc)
  {
    LiveIsCounted(s, t, h);
    forall u: nat | u < |s.threads| && u != t
      ensures !Alone(s.threads[u].pc) && !Ending(s.threads[u].pc)
    {
      assert ThreadOk(s, u);
      if Alone(s.threads[u].pc) {
        var g := s.threads[u].pc.h;
        Apart(s, t, h, u, g);
        LiveIsCounted(s, u, g);
        if s.handles[h].kind == Arc {
          SumAtLeastTwo(s.handles, if g < h then g else h, if g < h then h else g, ArcShare);
        }
      }
    }
  }

  // ----- What a step of thread `t` leaves alone -----

  predicate OneThread(s: State, s': State, t: nat) {
    t < |s.threads| == |s'.threads| && s'.threads == s.threads[t := s'.threads[t]]
  }

  /** Handle `g` still serves the threads other than `t`. */
  predicate Serves(s: State, s': State, t: nat, g: nat)
    requires t < |s.threads| && g < |s.handles|
  {
    && g < |s'.handles|
    && (|| s'.handles[g] == s.handles[g]
        || Owns(s.threads[t].pc, g)
        || (g in s.threads[t].shared && s'.handles[g] == s.handles[g].(ended := s'.handles[g].ended)))
  }

  /** The messages and counts on which decisive phases of other threads rest. */
  ghost predicate Undisturbed(s: State, s': State, t: nat)
    requires s.data != [] && s.alloc != [] && s'.data != [] && s'.alloc != []
  {
    && (LastData(s') == LastData(s)
        || forall u: nat | u < |s.threads| && u != t :: !Alone(s.threads[u].pc) && !Lasting(s.threads[u].pc))
    && (LastAlloc(s') == LastAlloc(s)
        || forall u: nat | u < |s.threads| && u != t ::
             !Locking(s.threads[u].pc) && !Alone(s.threads[u].pc) && !Ending(s.threads[u].pc))
    && ((Arcs(s') == Arcs(s) && Weaks(s') == Weaks(s) && s'.writes == s.writes)
        || forall u: nat | u < |s.threads| && u != t :: !Alone(s.threads[u].pc))
  }

  lemma OthersBorrow(s: State, s': State, t: nat)
    requires OneThread(s, s', t)
    requires forall u: nat | u < |s.threads| :: BorrowsOk(s, u)
    requires forall g: nat | g < |s.handles| :: Serves(s, s', t, g)
    requires forall g: nat | Uses(s'.threads[t], g) ::
               Uses(s.threads[t], g) || forall u: nat | u < |s.threads| && u != t :: !Owns(s.threads[u].pc, g)
    ensures forall u: nat | u < |s.threads| && u != t :: BorrowsOk(s', u)
  {
    forall u: nat | u < |s.threads| && u != t
      ensures BorrowsOk(s', u)
    {
      assert BorrowsOk(s, u) && BorrowsOk(s, t);
      var th := s.threads[u];
      forall h | h in th.shared
        ensures SharedOk(s', u, h)
      {
        assert SharedOk(s, u, h) && Uses(th, h) && Serves(s, s', t, h);
      }
      if Owning(th.pc) {
        assert Serves(s, s', t, th.pc.h) && Owns(th.pc, th.pc.h);
      }
      if Through(th.pc) {
        assert SharedOk(s, u, th.pc.h) && Uses(th, th.pc.h) && Serves(s, s', t, th.pc.h);
      }
    }
  }

  lemma OthersKept(s: State, s': State, t: nat)
    requires OneThread(s, s', t) && s.data != [] && s.alloc != [] && |s.data| <= |s'.data| && |s.alloc| <= |s'.alloc|
    requires forall u: nat | u < |s.threads| :: ThreadOk(s, u)
    requires forall g: nat | g < |s.handles| :: Serves(s, s', t, g)
    requires forall g: nat | Uses(s'.threads[t], g) ::
               Uses(s.threads[t], g) || forall u: nat | u < |s.threads| && u != t :: !Owns(s.threads[u].pc, g)
    requires SameForOthers(s.locker, s'.locker, t)
    requires SameForOthers(s.last, s'.last, t)
    requires SameForOthers(s.freer, s'.freer, t)
    requires s'.dropped == s.dropped || s.last == By(t)
    requires Undisturbed(s, s', t)
    ensures forall u: nat | u < |s.threads| && u != t :: ThreadOk(s', u)
  {
    forall u: nat | u < |s.threads|
      ensures BorrowsOk(s, u)
    {
      assert ThreadOk(s, u);
    }
    OthersBorrow(s, s', t);
    forall u: nat | u < |s.threads| && u != t
      ensures ThreadOk(s', u)
    {
      assert ThreadOk(s, u) && BorrowsOk(s', u);
    }
  }

  lemma HandlesKept(s: State, s': State, t: nat, h: nat)
    requires OneThread(s, s', t) && |s.data| <= |s'.data| && |s.alloc| <= |s'.alloc|
    requires forall g: nat | g < |s.handles| :: HandleOk(s, g)
    requires |s.handles| <= |s'.handles| && s'.writes == s.writes
    requires forall g: nat | g < |s.handles| && g != h :: s'.handles[g] == s.handles[g]
    requires s.threads[t].pc.Mutating? ==> s.threads[t].pc.h == h || s'.threads[t].pc == s.threads[t].pc
    ensures forall g: nat | g < |s.handles| && g != h :: HandleOk(s', g)
  {
    forall g: nat | g < |s.handles| && g != h
      ensures HandleOk(s', g)
    {
      assert HandleOk(s, g);
      if u: nat :| IsMutating(s, u, g) {
        assert IsMutating(s', u, g);
      }
    }
  }

  /** What was known about a handle that `t` neither changes nor lets go of. */
  lemma KeepsOther(s: State, s': State, t: nat, g: nat)
    requires OneThread(s, s', t) && g < |s.handles| && g < |s'.handles| && s'.handles[g] == s.handles[g]
    requires Leq(s.threads[t].clock, s'.threads[t].clock)
    requires Uses(s.threads[t], g) ==> Uses(s'.threads[t], g)
    ensures Keeps(s, s', g)
  {
    forall c: Clock | About(s, g, c)
      ensures Heard(s', g, c)
    {
      if u: nat :| UserClock(s, u, g, c) {
        var c' := s'.threads[u].clock;
        assert UserClock(s', u, g, c') && About(s', g, c');
      } else {
        assert About(s', g, c);
      }
    }
  }

  lemma KeepsAllBut(s: State, s': State, t: nat, h: nat)
    requires OneThread(s, s', t) && |s.handles| <= |s'.handles|
    requires forall g: nat | g < |s.handles| && g != h :: s'.handles[g] == s.handles[g]
    requires Leq(s.threads[t].clock, s'.threads[t].clock)
    requires forall g: nat | g != h && Uses(s.threads[t], g) :: Uses(s'.threads[t], g)
    ensures forall g: nat | g < |s.handles| && g != h :: Keeps(s, s', g)
  {
    forall g: nat | g < |s.handles| && g != h
      ensures Keeps(s, s', g)
    {
      KeepsOther(s, s', t, g);
    }
  }

  /** What was known about the dropped handle `h` is in the newest messages. */
  ghost predicate Released(s: State, h: nat, m: Msg) {
    forall c: Clock | About(s, h, c) :: Leq(c, m.clock)
  }

  predicate Grows(s: State, s': State)
    requires s.data != [] && s.alloc != [] && s'.data != [] && s'.alloc != []
  {
    && Leq(LastData(s).clock, LastData(s').clock) && Leq(LastAlloc(s).clock, LastAlloc(s').clock)
    && |s.handles| <= |s'.handles|
  }

  lemma HeardCovers(s: State, s': State, h: nat, e: nat)
    requires Keeps(s, s', h) && HandleCovers(s, h, e)
    ensures HandleCovers(s', h, e)
  {
    var c: Clock :| About(s, h, c) && e in c.events;
    assert Heard(s', h, c);
    var c': Clock :| About(s', h, c') && Leq(c, c');
    assert e in c'.events;
  }

  lemma CoverKept(s: State, s': State, t: nat, h: nat)
    requires OneThread(s, s', t) && s.data != [] && s.alloc != [] && s'.data != [] && s'.alloc != [] && Grows(s, s')
    requires forall g: nat | g < |s.handles| && g != h :: Keeps(s, s', g)
    requires h < |s.handles| ==> Keeps(s, s', h) || Released(s, h, LastData(s')) || Released(s, h, LastAlloc(s'))
    requires Lasting(s.threads[t].pc) ==>
      || (Lasting(s'.threads[t].pc) && Leq(s.threads[t].clock, s'.threads[t].clock))
      || Leq(s.threads[t].clock, LastAlloc(s').clock)
    requires forall e: nat | e < s.events :: Covered(s, e)
    requires s'.events == s.events || (s'.events == s.events + 1 && Covered(s', s.events))
    ensures forall e: nat | e < s'.events :: Covered(s', e)
  {
    forall e: nat | e < s.events
      ensures Covered(s', e)
    {
      assert Covered(s, e);
      if g: nat :| HandleCovers(s, g, e) {
        assert g < |s.handles|;
        if Keeps(s, s', g) { HeardCovers(s, s', g, e); }
      } else if u: nat :| LastCovers(s, u, e) {
        assert LastCovers(s', u, e) || e in LastAlloc(s').clock.events;
      }
    }
  }

  lemma TCoverKept(s: State, s': State, t: nat, h: nat)
    requires s.data != [] && s'.data != [] && Leq(LastData(s).clock, LastData(s').clock)
    requires forall g: nat | g < |s.handles| && g != h :: Keeps(s, s', g)
    requires h < |s.handles| ==> Keeps(s, s', h) || Released(s, h, LastData(s')) || s.handles[h].kind == Weak
    requires forall g: nat | IsLive(s, g, Arc) && g != h :: IsLive(s', g, Arc)
    requires IsLive(s, h, Arc) ==> IsLive(s', h, Arc) || Released(s, h, LastData(s'))
    requires forall e: nat | e in s.touched :: TCovered(s, e)
    ensures forall e: nat | e in s.touched :: TCovered(s', e)
  {
    forall e: nat | e in s.touched
      ensures TCovered(s', e)
    {
      assert TCovered(s, e);
      if g: nat :| IsLive(s, g, Arc) && HandleCovers(s, g, e) {
        if g == h && Released(s, h, LastData(s')) {
        } else {
          HeardCovers(s, s', g, e);
        }
      }
    }
  }

  lemma BearsKept(s: State, s': State, h: nat, g: nat, j: nat)
    requires Keeps(s, s', g) && Bears(s, h, g, j) && (IsLive(s, g, Weak) ==> IsLive(s', g, Weak))
    ensures Bears(s', h, g, j)
  {
    var c: Clock :| About(s, g, c) && j <= c.data;
    assert Heard(s', g, c);
    var c': Clock :| About(s', g, c') && Leq(c, c');
    assert j <= c'.data;
  }

  /** What is known for the owner of `h` about the first counter; `x` is the handle that the step changes. */
  lemma KnowsKept(s: State, s': State, x: nat, h: nat, j: nat)
    requires s.alloc != [] && s'.alloc != [] && Leq(LastAlloc(s).clock, LastAlloc(s').clock)
    requires forall g: nat | g < |s.handles| && g != x :: Keeps(s, s', g)
    requires forall g: nat | g != x && IsLive(s, g, Weak) :: IsLive(s', g, Weak)
    requires x < |s.handles| ==>
      || (Keeps(s, s', x) && (IsLive(s, x, Weak) ==> IsLive(s', x, Weak)))
      || Released(s, x, LastAlloc(s'))
      || (h != x && s.handles[x].kind == Arc)
    requires Knows(s, h, j)
    ensures Knows(s', h, j)
  {
    if g: nat :| Bears(s, h, g, j) {
      assert g < |s.handles|;
      if g == x && Released(s, x, LastAlloc(s')) {
      } else {
        BearsKept(s, s', h, g, j);
      }
    }
  }

  lemma OnesKept(s: State, s': State, x: nat)
    requires s.alloc != [] && s'.alloc != [] && Leq(LastAlloc(s).clock, LastAlloc(s').clock)
    requires s'.data == s.data
    requires forall g: nat | g < |s.handles| && g != x :: Keeps(s, s', g)
    requires forall g: nat | g != x && IsLive(s, g, Weak) :: IsLive(s', g, Weak)
    requires x < |s.handles| ==>
      || (Keeps(s, s', x) && (IsLive(s, x, Weak) ==> IsLive(s', x, Weak)))
      || Released(s, x, LastAlloc(s'))
    requires forall g: nat | g < |s.handles| && IsLive(s', g, Arc) ::
      IsLive(s, g, Arc) && s'.handles[g].birth == s.handles[g].birth
    requires forall g: nat | g < |s.handles| :: OnesSeen(s, g)
    ensures forall g: nat | g < |s.handles| :: OnesSeen(s', g)
  {
    forall g: nat | g < |s.handles| && IsLive(s', g, Arc)
      ensures OnesSeen(s', g)
    {
      assert OnesSeen(s, g);
      forall i: nat | s'.handles[g].birth <= i < |s'.data| - 1 && s'.data[i].value == 1
        ensures Knows(s', g, i + 1)
      {
        KnowsKept(s, s', x, g, i + 1);
      }
    }
  }
}
