/** Small notions that several models share. */
module Basics {

  /** Which thread, if any, plays a part that at most one thread plays at a time. */
  datatype Role = Nobody | By(t: nat)

  predicate InRange(r: Role, n: nat) {
    r.By? ==> r.t < n
  }

  /** The part changes at most for thread `t`. */
  predicate SameForOthers(a: Role, b: Role, t: nat) {
    a == b || ((a.Nobody? || a == By(t)) && (b.Nobody? || b == By(t)))
  }

  /** Every step of the schedule is one of a thread other than `t`. */
  predicate OthersOnly<Choice>(t: nat, sched: seq<(nat, Choice)>) {
    forall i | 0 <= i < |sched| :: sched[i].0 != t
  }

  function One(b: bool): nat {
    if b then 1 else 0
  }

  function Max(a: nat, b: nat): nat {
    if a < b then b else a
  }
}

/** The references of the models with clocks. */
module References {

  /** `Doomed` is a reference that was counted by a clone that is about to abort. */
  datatype Status = Live | Gone | Doomed
}
