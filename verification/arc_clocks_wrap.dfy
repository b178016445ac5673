/** The exact number of threads up to which the abort of clone keeps the one counter from wrapping around. */
module ArcClocksWrap {
  import opened References
  import opened Usize
  import opened ArcClocks

  /** A clone by `t` through `h`, if it is possible, raises the count by one. */
  predicate Raises(s: State, t: nat, h: nat) {
    s.msgs != [] && !s.aborted && t < |s.threads| && s.threads[t].pc.Calm? && h in s.threads[t].shared ==>
      var s' := Step(s, t, Clone(h));
      s'.msgs != [] && Last(s').value == Last(s).value + 1
  }

  ghost predicate NeverWraps(n: nat) {
    forall sched: seq<(nat, Action)>, t: nat, h: nat :: Raises(Run(Init(n), sched), t, h)
  }

  /**
   The first `sharing` of `n` threads borrow handle 0, the first `doomed` ones have incremented too far and
   are about to abort, and the count is `value`.
   */
  predicate Crowd(s: State, n: nat, sharing: nat, doomed: nat, value: nat) {
    && |s.threads| == n && !s.aborted && s.msgs != [] && Last(s).value == value
    && s.handles != [] && s.handles[0].status == Live
    && (forall u: nat | u < n :: s.threads[u].pc == if u < doomed then Aborting else Calm)
    && (forall u: nat | u < sharing && u < n :: 0 in s.threads[u].shared)
  }

  lemma {:induction false} AllShare(n: nat, k: nat) returns (sched: seq<(nat, Action)>)
    requires k <= n
    ensures Crowd(Run(Init(n), sched), n, k, 0, 1)
    decreases k
  {
    if k == 0 {
      sched := [];
    } else {
      sched := AllShare(n, k - 1);
      assert CanShare(Run(Init(n), sched), 0);
      RunSnoc(Init(n), sched, k - 1, BeginShared(0));
      sched := sched + [(k - 1, BeginShared(0))];
    }
  }

  /** Clones of thread 0 that are within the limit. */
  lemma {:induction false} CloneMany(n: nat, k: nat) returns (sched: seq<(nat, Action)>)
    requires 0 < n && k <= MAX / 2
    ensures Crowd(Run(Init(n), sched), n, n, 0, k + 1)
    decreases k
  {
    if k == 0 {
      sched := AllShare(n, n);
    } else {
      sched := CloneMany(n, k - 1);
      RunSnoc(Init(n), sched, 0, Clone(0));
      sched := sched + [(0, Clone(0))];
    }
  }

  /** One clone too many by each of the first `k` threads; none of them has aborted the process yet. */
  lemma {:induction false} DoomMany(n: nat, k: nat) returns (sched: seq<(nat, Action)>)
    requires 0 < n && k <= n && k <= MAX / 2
    ensures Crowd(Run(Init(n), sched), n, n, k, MAX / 2 + 1 + k)
    decreases k
  {
    if k == 0 {
      sched := CloneMany(n, MAX / 2);
    } else {
      sched := DoomMany(n, k - 1);
      RunSnoc(Init(n), sched, k - 1, Clone(0));
      sched := sched + [(k - 1, Clone(0))];
    }
  }

  /** With more than `usize::MAX / 2` threads some run wraps the count around to 0 under a live handle. */
  lemma CountWraps(n: nat) returns (sched: seq<(nat, Action)>)
    requires n > MAX / 2
    ensures var s := Run(Init(n), sched);
      && Crowd(s, n, n, MAX / 2, MAX)
      && !Raises(s, MAX / 2, 0)
      && Last(Step(s, MAX / 2, Clone(0))).value == 0
  {
    sched := DoomMany(n, MAX / 2);
  }

  /** No increment of any run wraps around if and only if there are at most `usize::MAX / 2` threads. */
  lemma NeverWrapsIff(n: nat)
    ensures NeverWraps(n) <==> n <= MAX / 2
  {
    if n <= MAX / 2 {
      forall sched: seq<(nat, Action)>, t: nat, h: nat
        ensures Raises(Run(Init(n), sched), t, h)
      {
        CountNeverWraps(n, sched, t, h);
        assert Raises(Run(Init(n), sched), t, h) by {
          var s := Run(Init(n), sched);
          if s.msgs != [] && !s.aborted && t < |s.threads| && s.threads[t].pc.Calm? && h in s.threads[t].shared {
            assert Step(s, t, Clone(h)) == CloneStep(s, t, h);
          }
        }
      }
    } else {
      var sched := CountWraps(n);
      assert !Raises(Run(Init(n), sched), MAX / 2, 0);
    }
  }
}
