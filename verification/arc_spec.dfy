/**
 What an `Arc` means when operations run one after another: a list of handles, and threads that may
 hold on to a `&T` or a `&mut T`. Both two-counter implementations are proved equal to it.
 */
module ArcSpec {
  import opened Borrowing

  datatype Rest = Resting | Reading(h: nat) | Writing(h: nat)
  datatype Spec = Spec(handles: seq<Handle>, rest: seq<Rest>)

  function LoanOf(r: Rest): Loan {
    match r
    case Resting => NoLoan
    case Reading(h) => Shared(h, Arc)
    case Writing(h) => Exclusive(h, Arc)
  }

  function Loans(rest: seq<Rest>): (loans: seq<Loan>)
    ensures |loans| == |rest|
    ensures forall t | 0 <= t < |rest| :: loans[t] == LoanOf(rest[t])
  {
    seq(|rest|, t requires 0 <= t < |rest| => LoanOf(rest[t]))
  }

  /** What the operation borrows while it runs. */
  function Needs(op: Op, h: nat): Loan {
    match op
    case Deref | Clone | Downgrade => Shared(h, Arc)
    case GetMut | Drop => Exclusive(h, Arc)
    case Upgrade | CloneWeak => Shared(h, Weak)
    case DropWeak => Exclusive(h, Weak)
  }

  predicate SomeArc(handles: seq<Handle>) {
    exists i | 0 <= i < |handles| :: handles[i] == Arc
  }

  predicate SomeHandle(handles: seq<Handle>) {
    exists i | 0 <= i < |handles| :: handles[i] != Gone
  }

  predicate Only(handles: seq<Handle>, h: nat) {
    forall i | 0 <= i < |handles| && i != h :: handles[i] == Gone
  }

  /** The meaning of one whole operation, or of the end of a borrow of T, by thread `t`. */
  function Apply(a: Spec, t: nat, op: Op, h: nat): Spec {
    if t >= |a.rest| then a
    else if a.rest[t] != Resting then a.(rest := a.rest[t := Resting])
    else if !Admits(a.handles, Loans(a.rest), Needs(op, h)) then a
    else
      match op
      case Deref => a.(rest := a.rest[t := Reading(h)])
      case Clone => a.(handles := a.handles + [Arc])
      case Downgrade | CloneWeak => a.(handles := a.handles + [Weak])
      case GetMut => if Only(a.handles, h) then a.(rest := a.rest[t := Writing(h)]) else a
      case Upgrade => if SomeArc(a.handles) then a.(handles := a.handles + [Arc]) else a
      case Drop | DropWeak => if h < |a.handles| then a.(handles := a.handles[h := Gone]) else a
  }

  datatype Call = Call(t: nat, op: Op, h: nat)

  function ApplyAll(a: Spec, calls: seq<Call>): Spec
    decreases |calls|
  {
    if calls == [] then a else ApplyAll(Apply(a, calls[0].t, calls[0].op, calls[0].h), calls[1..])
  }

  function New(n: nat): Spec {
    Spec([Arc], seq(n, _ => Resting))
  }
}

/** Sums over handles when no operation is in flight. */
module SettledHandles {
  import opened Sums
  import opened Usize
  import opened Borrowing
  import opened ArcSpec

  /** At most `usize::MAX / 2` handles. */
  predicate Small(handles: seq<Handle>) {
    Arcs(handles) + Weaks(handles) <= MAX / 2
  }

  predicate NoStray(handles: seq<Handle>) {
    forall i | 0 <= i < |handles| :: !handles[i].Stray?
  }

  lemma SomeArcCounted(handles: seq<Handle>)
    requires NoStray(handles)
    ensures SomeArc(handles) <==> Arcs(handles) > 0
  {
    if i :| 0 <= i < |handles| && handles[i] == Arc {
      SumAtLeast(handles, i, ArcShare);
    } else {
      SumConstant(handles, 0, ArcShare);
    }
  }

  lemma SomeHandleCounted(handles: seq<Handle>)
    requires NoStray(handles)
    ensures SomeHandle(handles) <==> Arcs(handles) + Weaks(handles) > 0
  {
    if i :| 0 <= i < |handles| && handles[i] != Gone {
      SumAtLeast(handles, i, ArcShare);
      SumAtLeast(handles, i, WeakShare);
    } else {
      SumConstant(handles, 0, ArcShare);
      SumConstant(handles, 0, WeakShare);
    }
  }

  lemma OnlyCounted(handles: seq<Handle>, h: nat)
    requires NoStray(handles) && h < |handles| && handles[h] == Arc
    ensures Only(handles, h) <==> Arcs(handles) + Weaks(handles) == 1
  {
    var others := handles[h := Gone];
    Changed(handles, h, Gone);
    SomeHandleCounted(others);
    assert Only(handles, h) <==> !SomeHandle(others) by {
      if i :| 0 <= i < |handles| && i != h && handles[i] != Gone {
        assert others[i] != Gone;
      }
    }
  }
}
