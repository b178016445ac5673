/**
 The ownership discipline that the borrow checker imposes on handles: a handle is lent to any number
 of shared borrows or to one exclusive borrow, and a handle that is given up is exclusively borrowed.
 */
module Borrowing {
  import opened Sums

  /**
   `Stray` is a reference inside an operation of thread `owner`: it already or still has the given shares
   in the two counters, but nobody can borrow it.
   */
  datatype Handle = Arc | Weak | Gone | Stray(data: nat, alloc: nat, owner: nat)

  /** The operations on an `Arc` or a `Weak`; downgrade and get_mut take an `Arc`, upgrade takes a `Weak`. */
  datatype Op = Deref | Clone | Drop | Downgrade | GetMut | Upgrade | CloneWeak | DropWeak

  datatype Loan = NoLoan | Shared(h: nat, kind: Handle) | Exclusive(h: nat, kind: Handle)

  predicate Conflict(a: Loan, b: Loan) {
    !a.NoLoan? && !b.NoLoan? && a.h == b.h && (a.Exclusive? || b.Exclusive?)
  }

  predicate Backed(handles: seq<Handle>, l: Loan) {
    l.NoLoan? || ((l.kind == Arc || l.kind == Weak) && l.h < |handles| && handles[l.h] == l.kind)
  }

  /** May a new borrow `l` start? */
  predicate Admits(handles: seq<Handle>, loans: seq<Loan>, l: Loan) {
    Backed(handles, l) && forall u | 0 <= u < |loans| :: !Conflict(loans[u], l)
  }

  ghost predicate Borrows(handles: seq<Handle>, loans: seq<Loan>) {
    && (forall t | 0 <= t < |loans| :: Backed(handles, loans[t]))
    && (forall t, u | 0 <= t < |loans| && 0 <= u < |loans| && t != u :: !Conflict(loans[t], loans[u]))
  }

  lemma Taken(handles: seq<Handle>, loans: seq<Loan>, t: nat, l: Loan)
    requires Borrows(handles, loans) && t < |loans| && Admits(handles, loans, l)
    ensures Borrows(handles, loans[t := l])
  {
  }

  lemma Ended(handles: seq<Handle>, loans: seq<Loan>, t: nat)
    requires Borrows(handles, loans) && t < |loans|
    ensures Borrows(handles, loans[t := NoLoan])
  {
  }

  /** The loan `l` may replace that of thread `t`. */
  predicate MayHold(handles: seq<Handle>, loans: seq<Loan>, t: nat, l: Loan)
    requires t < |loans|
  {
    l == loans[t] || l.NoLoan? || Admits(handles, loans, l)
  }

  lemma LoanMoved(handles: seq<Handle>, loans: seq<Loan>, t: nat, loans': seq<Loan>)
    requires Borrows(handles, loans) && t < |loans| == |loans'| && loans' == loans[t := loans'[t]]
    requires MayHold(handles, loans, t, loans'[t])
    ensures Borrows(handles, loans')
  {
    if loans'[t] == loans[t] {
      assert loans' == loans;
    } else if loans'[t].NoLoan? {
      Ended(handles, loans, t);
    } else {
      Taken(handles, loans, t, loans'[t]);
    }
  }

  lemma Created(handles: seq<Handle>, loans: seq<Loan>, kind: Handle)
    requires Borrows(handles, loans)
    ensures Borrows(handles + [kind], loans)
  {
  }

  /** Giving a handle up, or keeping it only as a stray reference, ends its exclusive borrow. */
  lemma GivenUp(handles: seq<Handle>, loans: seq<Loan>, t: nat, kind: Handle)
    requires Borrows(handles, loans) && t < |loans| && loans[t].Exclusive?
    ensures loans[t].h < |handles|
    ensures Borrows(handles[loans[t].h := kind], loans[t := NoLoan])
  {
    assert Backed(handles, loans[t]);
  }

  /** A stray reference may become anything. */
  lemma Settled(handles: seq<Handle>, loans: seq<Loan>, h: nat, kind: Handle)
    requires Borrows(handles, loans) && h < |handles| && handles[h].Stray?
    ensures Borrows(handles[h := kind], loans)
  {
  }

  /** The share of a handle in the count of `Arc`s and in the count of `Weak`s. */
  function ArcShare(h: Handle): nat {
    match h
    case Arc => 1
    case Stray(data, _, _) => data
    case _ => 0
  }

  function WeakShare(h: Handle): nat {
    match h
    case Weak => 1
    case Stray(_, alloc, _) => alloc
    case _ => 0
  }

  function Arcs(handles: seq<Handle>): nat {
    Sum(handles, ArcShare)
  }

  function Weaks(handles: seq<Handle>): nat {
    Sum(handles, WeakShare)
  }

  lemma Added(handles: seq<Handle>, kind: Handle)
    ensures Arcs(handles + [kind]) == Arcs(handles) + ArcShare(kind)
    ensures Weaks(handles + [kind]) == Weaks(handles) + WeakShare(kind)
  {
    SumAppend(handles, kind, ArcShare);
    SumAppend(handles, kind, WeakShare);
  }

  lemma Changed(handles: seq<Handle>, h: nat, kind: Handle)
    requires h < |handles|
    ensures Arcs(handles[h := kind]) + ArcShare(handles[h]) == Arcs(handles) + ArcShare(kind)
    ensures Weaks(handles[h := kind]) + WeakShare(handles[h]) == Weaks(handles) + WeakShare(kind)
  {
    SumUpdate(handles, h, kind, ArcShare);
    SumUpdate(handles, h, kind, WeakShare);
  }

  /** A borrowed handle is alive. */
  lemma Alive(handles: seq<Handle>, loans: seq<Loan>, t: nat)
    requires Borrows(handles, loans) && t < |loans| && !loans[t].NoLoan?
    ensures loans[t].kind == Arc ==> Arcs(handles) > 0
    ensures loans[t].kind == Weak ==> Weaks(handles) > 0
    ensures loans[t].h < |handles| && handles[loans[t].h] == loans[t].kind
  {
    assert Backed(handles, loans[t]);
    SumAtLeast(handles, loans[t].h, ArcShare);
    SumAtLeast(handles, loans[t].h, WeakShare);
  }

  /** Two borrows, one of them exclusive, are borrows of different live handles. */
  lemma Apart(handles: seq<Handle>, loans: seq<Loan>, t: nat, u: nat)
    requires Borrows(handles, loans) && t < |loans| && u < |loans| && t != u
    requires loans[t].Exclusive? && !loans[u].NoLoan?
    ensures loans[t].h < |handles| && loans[u].h < |handles| && loans[t].h != loans[u].h
    ensures handles[loans[t].h] == loans[t].kind && handles[loans[u].h] == loans[u].kind
  {
    assert Backed(handles, loans[t]) && Backed(handles, loans[u]) && !Conflict(loans[t], loans[u]);
  }

  /** Beside an exclusively borrowed `Arc`, every other borrowed handle is a further live handle. */
  lemma TwoAlive(handles: seq<Handle>, loans: seq<Loan>, t: nat, u: nat)
    requires Borrows(handles, loans) && t < |loans| && u < |loans| && t != u
    requires loans[t].Exclusive? && loans[t].kind == Arc && !loans[u].NoLoan?
    ensures Arcs(handles) + Weaks(handles) >= 2
  {
    Apart(handles, loans, t, u);
    assert Backed(handles, loans[u]);
    var i, j := loans[t].h, loans[u].h;
    if loans[u].kind == Arc {
      SumAtLeastTwo(handles, if i < j then i else j, if i < j then j else i, ArcShare);
    } else {
      SumAtLeast(handles, i, ArcShare);
      SumAtLeast(handles, j, WeakShare);
    }
  }
}
