/**
 Clocks of the `Arc`s with two counters. A clock is the set of block accesses that happen before a point
 of the execution, together with the newest entries of both modification orders among them.
 */
module TwoClocks {
  import opened Basics

  datatype Clock = Clock(events: set<nat>, data: nat, alloc: nat)

  function Join(a: Clock, b: Clock): Clock {
    Clock(a.events + b.events, Max(a.data, b.data), Max(a.alloc, b.alloc))
  }

  predicate Leq(a: Clock, b: Clock) {
    a.events <= b.events && a.data <= b.data && a.alloc <= b.alloc
  }

  const NEVER := Clock({}, 0, 0)

  function Tick(c: Clock, e: nat): Clock {
    c.(events := c.events + {e})
  }

  /** Every access so far is in the clock. */
  predicate Complete(events: nat, c: Clock) {
    forall e: nat | e < events :: e in c.events
  }

  /** The clock refers to entries that exist. */
  predicate WithinClock(c: Clock, data: nat, alloc: nat) {
    c.data < data && c.alloc < alloc
  }

  datatype Msg = Msg(value: nat, clock: Clock)
}
