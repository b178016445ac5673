/** The optimised implementation refines the simple one. */
module ArcRefinement {
  import opened ArcSpec
  import opened SettledHandles
  import O = ArcOptimised
  import S = ArcSimple
  import OW = OptimisedWhole
  import SW = SimpleWhole

  function RunSimple(s: S.State, calls: seq<Call>): S.State
    decreases |calls|
  {
    if calls == [] then s else RunSimple(SW.Whole(s, calls[0].t, calls[0].op, calls[0].h), calls[1..])
  }

  function RunOptimised(s: O.State, calls: seq<Call>): O.State
    decreases |calls|
  {
    if calls == [] then s else RunOptimised(OW.Whole(s, calls[0].t, calls[0].op, calls[0].h), calls[1..])
  }

  /** At every call there are at most `usize::MAX / 2` handles. */
  ghost predicate AlwaysSmall(a: Spec, calls: seq<Call>)
    decreases |calls|
  {
    && Small(a.handles)
    && (calls != [] ==> AlwaysSmall(Apply(a, calls[0].t, calls[0].op, calls[0].h), calls[1..]))
  }

  ghost predicate Related(s: S.State, o: O.State) {
    SW.Good(s) && OW.Good(o) && SW.Abs(s) == OW.Abs(o)
  }

  lemma {:induction false} RunsRelated(s: S.State, o: O.State, calls: seq<Call>)
    requires Related(s, o) && AlwaysSmall(SW.Abs(s), calls)
    ensures Related(RunSimple(s, calls), RunOptimised(o, calls))
    ensures SW.Abs(RunSimple(s, calls)) == ApplyAll(SW.Abs(s), calls)
    decreases |calls|
  {
    if calls == [] {
    } else {
      var c := calls[0];
      SW.WholeMeansSpec(s, c.t, c.op, c.h);
      OW.WholeMeansSpec(o, c.t, c.op, c.h);
      RunsRelated(SW.Whole(s, c.t, c.op, c.h), OW.Whole(o, c.t, c.op, c.h), calls[1..]);
    }
  }

  /**
   For every sequence of whole operations both implementations hold the same handles and borrows, which
   are those of the specification: so upgrade and get_mut answer alike. T is dropped and the block freed
   at the same operation, and the second counters are related as the optimisation intends.
   */
  lemma OptimisedRefinesSimple(n: nat, calls: seq<Call>)
    requires AlwaysSmall(New(n), calls)
    ensures var s := RunSimple(S.Init(n), calls); var o := RunOptimised(O.Init(n), calls);
      && SW.Abs(s) == OW.Abs(o) == ApplyAll(New(n), calls)
      && s.data == o.data
      && s.alloc == (if s.data > 0 then o.data + o.alloc - 1 else o.alloc)
      && s.dropped == o.dropped == (if SomeArc(o.handles) then 0 else 1)
      && s.freed == o.freed == (if SomeHandle(o.handles) then 0 else 1)
      && !s.bad && !o.bad
  {
    S.InitInv(n);
    O.InitInv(n);
    assert SW.Abs(S.Init(n)) == New(n) == OW.Abs(O.Init(n));
    RunsRelated(S.Init(n), O.Init(n), calls);
    SW.RestCounters(RunSimple(S.Init(n), calls));
    OW.RestCounters(RunOptimised(O.Init(n), calls));
  }
}
