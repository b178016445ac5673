/**
 The two forms of the one-shot channel as code that updates the atomics and the message cell in place,
 with the steps of other threads in the gaps between the atomic operations of a call.
 */
module FlagChannelsCode {
  import opened Basics
  import opened FlagChannels

  type Gap = seq<(nat, Call)>

  lemma {:induction false} SingleSnoc(s: Single, tr: Gap, t: nat, c: Call)
    ensures RunSingle(s, tr + [(t, c)]) == SingleStep(RunSingle(s, tr), t, c)
    decreases |tr|
  {
    if tr == [] {
      assert (tr + [(t, c)])[1..] == [];
    } else {
      assert (tr + [(t, c)])[1..] == tr[1..] + [(t, c)];
      SingleSnoc(SingleStep(s, tr[0].0, tr[0].1), tr[1..], t, c);
    }
  }

  /** The steps of other threads leave a thread in a call alone, and the channel open. */
  lemma OthersLeaveMe(s: Single, u: nat, call: Call, t: nat)
    requires t < |s.core.threads| && u != t && s.core.threads[t] != Idle && !s.core.closed
    ensures var c' := SingleStep(s, u, call).core;
      |c'.threads| == |s.core.threads| && c'.threads[t] == s.core.threads[t] && !c'.closed
  {
  }

  /** The thread that won its race finds the cell as the protocol promises. */
  lemma MineAlone(s: Single, t: nat)
    requires Inv(s) && t < |s.core.threads| && ActivePc(s.core.threads[t])
    ensures !Races(s.core, t)
    ensures s.core.threads[t].SendWrite? || s.core.threads[t].SendStore? ==> s.word == WRITING && s.core.sent == []
    ensures s.core.threads[t].RecvRead? ==>
      s.word == READING && |s.core.sent| == 1 && s.core.received == [] && s.core.cell == Init(s.core.sent[0])
  {
    assert IsActive(s.core, t);
    assert forall u: nat | u < |s.core.threads| && u != t :: IsActive(s.core, u) && !ActivePc(s.core.threads[u]);
  }

  /** When nobody is in a call, every message sent was received or is still there. */
  lemma Closing(s: Single)
    requires Inv(s) && Unborrowed(s.core) && !s.core.closed
    ensures s.core.dropped == []
    ensures if s.word == READY then |s.core.sent| == 1 && s.core.received == [] && s.core.cell == Init(s.core.sent[0])
            else s.core.received == s.core.sent
  {
    assert s.core.active.By? ==> IsActive(s.core, s.core.active.t);
  }

  lemma {:induction false} DoubleSnoc(s: Double, tr: Gap, t: nat, c: Call)
    ensures RunDouble(s, tr + [(t, c)]) == DoubleStep(RunDouble(s, tr), t, c)
    decreases |tr|
  {
    if tr == [] {
      assert (tr + [(t, c)])[1..] == [];
    } else {
      assert (tr + [(t, c)])[1..] == tr[1..] + [(t, c)];
      DoubleSnoc(DoubleStep(s, tr[0].0, tr[0].1), tr[1..], t, c);
    }
  }

  /** The others' steps of a gap; its entries of thread `t` itself are left out. */
  function SingleMeanwhile(s: Single, t: nat, gap: Gap): Single
    decreases |gap|
  {
    if gap == [] then s
    else SingleMeanwhile(if gap[0].0 == t then s else SingleStep(s, gap[0].0, gap[0].1), t, gap[1..])
  }

  /** A call of send: its attempt, and if it succeeds the write and the store. */
  function SingleSend(s: Single, t: nat, m: nat, first: Gap, second: Gap): Single {
    var s1 := SingleStep(SingleStep(s, t, Call.Send(m)), t, IsReady);
    if t >= |s1.core.threads| || s1.core.threads[t] == Idle then s1 else
    var s2 := SingleStep(SingleMeanwhile(s1, t, first), t, IsReady);
    SingleStep(SingleMeanwhile(s2, t, second), t, IsReady)
  }

  /** A call of receive: its attempt, and if it succeeds the read. */
  function SingleReceive(s: Single, t: nat, gap: Gap): Single {
    var s1 := SingleStep(SingleStep(s, t, Call.Receive), t, IsReady);
    if t >= |s1.core.threads| || s1.core.threads[t] == Idle then s1
    else SingleStep(SingleMeanwhile(s1, t, gap), t, IsReady)
  }

  class SingleChannel {
    const n: nat
    var word: nat
    var core: Core
    ghost var trace: Gap

    function Abs(): Single
      reads this
    {
      Single(word, core)
    }

    ghost predicate Valid()
      reads this
    {
      Abs() == RunSingle(Single(EMPTY, NewCore(n)), trace)
    }

    constructor (n: nat)
      ensures Valid() && this.n == n && core == NewCore(n)
    {
      this.n, word, core, trace := n, EMPTY, NewCore(n), [];
    }

    lemma Known()
      requires Valid()
      ensures Inv(Abs())
    {
      RunInv(Single(EMPTY, NewCore(n)), trace);
    }

    /** What the word of an open channel says about its messages. */
    lemma Told()
      requires Valid() && !core.closed
      ensures (word == EMPTY <==> Untouched(core)) && (word == READY <==> HasMessage(core))
    {
      Known();
      WordTells(Abs());
    }

    ghost method Record(before: Single, t: nat, c: Call)
      requires before == RunSingle(Single(EMPTY, NewCore(n)), trace) && Abs() == SingleStep(before, t, c)
      modifies this`trace
      ensures Valid() && trace == old(trace) + [(t, c)]
    {
      SingleSnoc(Single(EMPTY, NewCore(n)), trace, t, c);
      trace := trace + [(t, c)];
    }

    method Others(t: nat, gap: Gap)
      requires Valid() && t < |core.threads| && core.threads[t] != Idle && !core.closed
      modifies this
      ensures Valid() && old(trace) <= trace && !core.closed
      ensures |core.threads| == old(|core.threads|) && core.threads[t] == old(core.threads[t])
      ensures Abs() == SingleMeanwhile(old(Abs()), t, gap)
    {
      for i := 0 to |gap|
        invariant Valid() && old(trace) <= trace && !core.closed
        invariant |core.threads| == old(|core.threads|) && core.threads[t] == old(core.threads[t])
        invariant SingleMeanwhile(Abs(), t, gap[i..]) == SingleMeanwhile(old(Abs()), t, gap)
      {
        assert gap[i..][1..] == gap[i + 1..];
        if gap[i].0 != t {
          ghost var before := Abs();
          Known();
          OthersLeaveMe(Abs(), gap[i].0, gap[i].1, t);
          var s := SingleStep(Abs(), gap[i].0, gap[i].1);
          word, core := s.word, s.core;
          Record(before, gap[i].0, gap[i].1);
        }
      }
    }

    method Begin(t: nat, call: Call, pc: Pc)
      requires Valid() && !core.closed && t < |core.threads| && core.threads[t] == Idle
      requires !call.DropChannel? && pc == FlagChannels.Begin(core, t, call).threads[t]
      modifies this
      ensures Valid() && trace == old(trace) + [(t, call)] && core == Goto(old(core), t, pc) && word == old(word)
    {
      ghost var before := Abs();
      core := core.(threads := core.threads[t := pc]);
      Record(before, t, call);
    }

    method Write(t: nat, m: nat)
      requires Valid() && !core.closed && t < |core.threads| && core.threads[t] == SendWrite(m)
      modifies this
      ensures Valid() && old(trace) <= trace && !core.closed && !core.bad
      ensures |core.threads| == old(|core.threads|) && core.threads[t] == SendStore(m)
      ensures Abs() == SingleStep(old(Abs()), t, IsReady)
    {
      ghost var before := Abs();
      Known();
      MineAlone(Abs(), t);
      core := core.(cell := Init(m), threads := core.threads[t := SendStore(m)]);
      Record(before, t, IsReady);
    }

    method Publish(t: nat, m: nat)
      requires Valid() && !core.closed && t < |core.threads| && core.threads[t] == SendStore(m)
      modifies this
      ensures Valid() && old(trace) <= trace && !core.closed && core.sent == [m]
      ensures |core.threads| == old(|core.threads|) && core.threads[t] == Idle
      ensures Abs() == SingleStep(old(Abs()), t, IsReady)
    {
      ghost var before := Abs();
      Known();
      MineAlone(Abs(), t);
      word := READY;
      core := core.(active := Nobody, sent := core.sent + [m], log := core.log + [SentOk],
                    threads := core.threads[t := Idle]);
      Record(before, t, IsReady);
    }

    /** Panics unless the channel is unused; otherwise this is the one message that is ever sent. */
    method Send(t: nat, m: nat, first: Gap, second: Gap) returns (ok: bool)
      requires Valid() && !core.closed && t < |core.threads| && core.threads[t] == Idle
      modifies this
      ensures Valid() && old(trace) <= trace && !core.closed
      ensures |core.threads| == old(|core.threads|) && core.threads[t] == Idle
      ensures (ok <==> old(word) == EMPTY) && (ok <==> Untouched(old(core)))
      ensures ok ==> core.sent == [m]
      ensures !ok ==> core.sent == old(core.sent)
      ensures Abs() == SingleSend(old(Abs()), t, m, first, second)
    {
      Told();
      Begin(t, Call.Send(m), SendTry(m));
      ghost var before := Abs();
      ok := word == EMPTY;
      if ok {
        word := WRITING;
        core := core.(threads := core.threads[t := SendWrite(m)], active := By(t));
      } else {
        core := core.(threads := core.threads[t := Idle], log := core.log + [SendPanicked]);
      }
      Record(before, t, IsReady);
      if ok {
        Others(t, first);
        Write(t, m);
        Others(t, second);
        Publish(t, m);
      }
    }

    method Read(t: nat) returns (m: nat)
      requires Valid() && !core.closed && t < |core.threads| && core.threads[t] == RecvRead
      modifies this
      ensures Valid() && old(trace) <= trace && !core.closed && core.received == core.sent == [m]
      ensures |core.threads| == old(|core.threads|) && core.threads[t] == Idle
      ensures Abs() == SingleStep(old(Abs()), t, IsReady)
    {
      ghost var before := Abs();
      Known();
      MineAlone(Abs(), t);
      m := core.cell.m;
      core := core.(cell := Moved, active := Nobody, received := core.received + [m], log := core.log + [Received(m)],
                    threads := core.threads[t := Idle]);
      Record(before, t, IsReady);
    }

    /** Panics unless a message is ready; otherwise this is the message sent, and it is received once. */
    method Receive(t: nat, gap: Gap) returns (ok: bool, m: nat)
      requires Valid() && !core.closed && t < |core.threads| && core.threads[t] == Idle
      modifies this
      ensures Valid() && old(trace) <= trace && !core.closed
      ensures |core.threads| == old(|core.threads|) && core.threads[t] == Idle
      ensures (ok <==> old(word) == READY) && (ok <==> HasMessage(old(core)))
      ensures ok ==> core.received == core.sent == [m]
      ensures !ok ==> core.received == old(core.received)
      ensures Abs() == SingleReceive(old(Abs()), t, gap)
    {
      Told();
      Begin(t, Call.Receive, RecvTry);
      ghost var before := Abs();
      ok := word == READY;
      if ok {
        word := READING;
        core := core.(threads := core.threads[t := RecvRead], active := By(t));
      } else {
        core := core.(threads := core.threads[t := Idle], log := core.log + [RecvPanicked]);
      }
      Record(before, t, IsReady);
      m := 0;
      if ok {
        Others(t, gap);
        m := Read(t);
      }
    }

    /** Whether a receive would succeed now. */
    method AskReady(t: nat) returns (b: bool)
      requires Valid() && !core.closed && t < |core.threads| && core.threads[t] == Idle
      modifies this
      ensures Valid() && old(trace) <= trace
      ensures b <==> HasMessage(old(core))
      ensures core == old(core).(log := old(core.log) + [Ready(b)])
    {
      Told();
      Begin(t, IsReady, Poll);
      ghost var before := Abs();
      b := word == READY;
      core := core.(threads := core.threads[t := Idle], log := core.log + [Ready(b)]);
      Record(before, t, IsReady);
    }

    /** A message that was never received is dropped with the channel, and no other. */
    method Drop(t: nat)
      requires Valid() && !core.closed && t < |core.threads| && Unborrowed(core)
      modifies this
      ensures Valid() && core.closed && !core.bad
      ensures core.sent == old(core.sent) && core.received == old(core.received)
      ensures core.received + core.dropped == core.sent
      ensures Abs() == SingleStep(old(Abs()), t, DropChannel)
    {
      ghost var before := Abs();
      Known();
      Closing(Abs());
      if word == READY {
        core := core.(closed := true, cell := Moved, dropped := core.dropped + [core.cell.m]);
      } else {
        core := core.(closed := true);
      }
      Record(before, t, DropChannel);
    }
  }

  /** The others' steps of a gap; its entries of thread `t` itself are left out. */
  function DoubleMeanwhile(s: Double, t: nat, gap: Gap): Double
    decreases |gap|
  {
    if gap == [] then s
    else DoubleMeanwhile(if gap[0].0 == t then s else DoubleStep(s, gap[0].0, gap[0].1), t, gap[1..])
  }

  /** A call of send: its attempt, and if it succeeds the write and the store. */
  function DoubleSend(s: Double, t: nat, m: nat, first: Gap, second: Gap): Double {
    var s1 := DoubleStep(DoubleStep(s, t, Call.Send(m)), t, IsReady);
    if t >= |s1.core.threads| || s1.core.threads[t] == Idle then s1 else
    var s2 := DoubleStep(DoubleMeanwhile(s1, t, first), t, IsReady);
    DoubleStep(DoubleMeanwhile(s2, t, second), t, IsReady)
  }

  /** A call of receive: its attempt, and if it succeeds the read. */
  function DoubleReceive(s: Double, t: nat, gap: Gap): Double {
    var s1 := DoubleStep(DoubleStep(s, t, Call.Receive), t, IsReady);
    if t >= |s1.core.threads| || s1.core.threads[t] == Idle then s1
    else DoubleStep(DoubleMeanwhile(s1, t, gap), t, IsReady)
  }

  class DoubleChannel {
    const n: nat
    var inUse: bool
    var ready: bool
    var core: Core
    ghost var trace: Gap

    function Abs(): Double
      reads this
    {
      Double(inUse, ready, core)
    }

    /** The single-word channel that went through the same calls. */
    ghost function Twin(): Single
      reads this
    {
      RunSingle(Single(EMPTY, NewCore(n)), trace)
    }

    ghost predicate Valid()
      reads this
    {
      Abs() == RunDouble(Double(false, false, NewCore(n)), trace)
    }

    constructor (n: nat)
      ensures Valid() && this.n == n && core == NewCore(n)
    {
      this.n, inUse, ready, core, trace := n, false, false, NewCore(n), [];
    }

    lemma Known()
      requires Valid()
      ensures Inv(Twin()) && Flags(Twin()) == Abs()
    {
      RunInv(Single(EMPTY, NewCore(n)), trace);
      RunsAgree(Single(EMPTY, NewCore(n)), trace);
    }

    /** What the flags of an open channel says about its messages. */
    lemma Told()
      requires Valid() && !core.closed
      ensures (!inUse <==> Untouched(core)) && (ready <==> HasMessage(core))
    {
      Known();
      WordTells(Twin());
    }

    ghost method Record(before: Double, t: nat, c: Call)
      requires before == RunDouble(Double(false, false, NewCore(n)), trace) && Abs() == DoubleStep(before, t, c)
      modifies this`trace
      ensures Valid() && trace == old(trace) + [(t, c)]
    {
      DoubleSnoc(Double(false, false, NewCore(n)), trace, t, c);
      trace := trace + [(t, c)];
    }

    method Others(t: nat, gap: Gap)
      requires Valid() && t < |core.threads| && core.threads[t] != Idle && !core.closed
      modifies this
      ensures Valid() && old(trace) <= trace && !core.closed
      ensures |core.threads| == old(|core.threads|) && core.threads[t] == old(core.threads[t])
      ensures Abs() == DoubleMeanwhile(old(Abs()), t, gap)
    {
      for i := 0 to |gap|
        invariant Valid() && old(trace) <= trace && !core.closed
        invariant |core.threads| == old(|core.threads|) && core.threads[t] == old(core.threads[t])
        invariant DoubleMeanwhile(Abs(), t, gap[i..]) == DoubleMeanwhile(old(Abs()), t, gap)
      {
        assert gap[i..][1..] == gap[i + 1..];
        if gap[i].0 != t {
          ghost var before := Abs();
          Known();
          OthersLeaveMe(Twin(), gap[i].0, gap[i].1, t);
          StepAgrees(Twin(), gap[i].0, gap[i].1);
          var s := DoubleStep(Abs(), gap[i].0, gap[i].1);
          inUse, ready, core := s.inUse, s.ready, s.core;
          Record(before, gap[i].0, gap[i].1);
        }
      }
    }

    method Begin(t: nat, call: Call, pc: Pc)
      requires Valid() && !core.closed && t < |core.threads| && core.threads[t] == Idle
      requires !call.DropChannel? && pc == FlagChannels.Begin(core, t, call).threads[t]
      modifies this
      ensures Valid() && trace == old(trace) + [(t, call)] && core == Goto(old(core), t, pc)
      ensures inUse == old(inUse) && ready == old(ready)
    {
      ghost var before := Abs();
      core := core.(threads := core.threads[t := pc]);
      Record(before, t, call);
    }

    method Write(t: nat, m: nat)
      requires Valid() && !core.closed && t < |core.threads| && core.threads[t] == SendWrite(m)
      modifies this
      ensures Valid() && old(trace) <= trace && !core.closed && !core.bad
      ensures |core.threads| == old(|core.threads|) && core.threads[t] == SendStore(m)
      ensures Abs() == DoubleStep(old(Abs()), t, IsReady)
    {
      ghost var before := Abs();
      Known();
      MineAlone(Twin(), t);
      core := core.(cell := Init(m), threads := core.threads[t := SendStore(m)]);
      Record(before, t, IsReady);
    }

    method Publish(t: nat, m: nat)
      requires Valid() && !core.closed && t < |core.threads| && core.threads[t] == SendStore(m)
      modifies this
      ensures Valid() && old(trace) <= trace && !core.closed && core.sent == [m]
      ensures |core.threads| == old(|core.threads|) && core.threads[t] == Idle
      ensures Abs() == DoubleStep(old(Abs()), t, IsReady)
    {
      ghost var before := Abs();
      Known();
      MineAlone(Twin(), t);
      ready := true;
      core := core.(active := Nobody, sent := core.sent + [m], log := core.log + [SentOk],
                    threads := core.threads[t := Idle]);
      Record(before, t, IsReady);
    }

    /** Panics unless the channel is unused; otherwise this is the one message that is ever sent. */
    method Send(t: nat, m: nat, first: Gap, second: Gap) returns (ok: bool)
      requires Valid() && !core.closed && t < |core.threads| && core.threads[t] == Idle
      modifies this
      ensures Valid() && old(trace) <= trace && !core.closed
      ensures |core.threads| == old(|core.threads|) && core.threads[t] == Idle
      ensures (ok <==> !old(inUse)) && (ok <==> Untouched(old(core)))
      ensures ok ==> core.sent == [m]
      ensures !ok ==> core.sent == old(core.sent)
      ensures Abs() == DoubleSend(old(Abs()), t, m, first, second)
    {
      Told();
      Begin(t, Call.Send(m), SendTry(m));
      ghost var before := Abs();
      ok := !inUse;
      inUse := true;
      if ok {
        core := core.(threads := core.threads[t := SendWrite(m)], active := By(t));
      } else {
        core := core.(threads := core.threads[t := Idle], log := core.log + [SendPanicked]);
      }
      Record(before, t, IsReady);
      if ok {
        Others(t, first);
        Write(t, m);
        Others(t, second);
        Publish(t, m);
      }
    }

    method Read(t: nat) returns (m: nat)
      requires Valid() && !core.closed && t < |core.threads| && core.threads[t] == RecvRead
      modifies this
      ensures Valid() && old(trace) <= trace && !core.closed && core.received == core.sent == [m]
      ensures |core.threads| == old(|core.threads|) && core.threads[t] == Idle
      ensures Abs() == DoubleStep(old(Abs()), t, IsReady)
    {
      ghost var before := Abs();
      Known();
      MineAlone(Twin(), t);
      m := core.cell.m;
      core := core.(cell := Moved, active := Nobody, received := core.received + [m], log := core.log + [Received(m)],
                    threads := core.threads[t := Idle]);
      Record(before, t, IsReady);
    }

    /** Panics unless a message is ready; otherwise this is the message sent, and it is received once. */
    method Receive(t: nat, gap: Gap) returns (ok: bool, m: nat)
      requires Valid() && !core.closed && t < |core.threads| && core.threads[t] == Idle
      modifies this
      ensures Valid() && old(trace) <= trace && !core.closed
      ensures |core.threads| == old(|core.threads|) && core.threads[t] == Idle
      ensures (ok <==> old(ready)) && (ok <==> HasMessage(old(core)))
      ensures ok ==> core.received == core.sent == [m]
      ensures !ok ==> core.received == old(core.received)
      ensures Abs() == DoubleReceive(old(Abs()), t, gap)
    {
      Told();
      Begin(t, Call.Receive, RecvTry);
      ghost var before := Abs();
      ok := ready;
      ready := false;
      if ok {
        core := core.(threads := core.threads[t := RecvRead], active := By(t));
      } else {
        core := core.(threads := core.threads[t := Idle], log := core.log + [RecvPanicked]);
      }
      Record(before, t, IsReady);
      m := 0;
      if ok {
        Others(t, gap);
        m := Read(t);
      }
    }

    /** Whether a receive would succeed now. */
    method AskReady(t: nat) returns (b: bool)
      requires Valid() && !core.closed && t < |core.threads| && core.threads[t] == Idle
      modifies this
      ensures Valid() && old(trace) <= trace
      ensures b <==> HasMessage(old(core))
      ensures core == old(core).(log := old(core.log) + [Ready(b)])
    {
      Told();
      Begin(t, IsReady, Poll);
      ghost var before := Abs();
      b := ready;
      core := core.(threads := core.threads[t := Idle], log := core.log + [Ready(b)]);
      Record(before, t, IsReady);
    }

    /** A message that was never received is dropped with the channel, and no other. */
    method Drop(t: nat)
      requires Valid() && !core.closed && t < |core.threads| && Unborrowed(core)
      modifies this
      ensures Valid() && core.closed && !core.bad
      ensures core.sent == old(core.sent) && core.received == old(core.received)
      ensures core.received + core.dropped == core.sent
      ensures Abs() == DoubleStep(old(Abs()), t, DropChannel)
    {
      ghost var before := Abs();
      Known();
      Closing(Twin());
      if ready {
        core := core.(closed := true, cell := Moved, dropped := core.dropped + [core.cell.m]);
      } else {
        core := core.(closed := true);
      }
      Record(before, t, DropChannel);
    }
  }
}
