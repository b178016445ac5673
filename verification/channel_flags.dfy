/**
 The one-shot channel whose misuse panics, in its two forms: one state word, and two flags. Any number
 of threads call send, receive and is_ready any number of times; the channel is dropped when nobody
 borrows it.
 */
module FlagChannels {
  import opened Basics

  /** The message cell: never written, initialised, or moved out of. */
  datatype Cell = Uninit | Init(m: nat) | Moved

  datatype Pc =
    | Idle
    | SendTry(m: nat)
    | SendWrite(m: nat)
    | SendStore(m: nat)
    | RecvTry
    | RecvRead
    | Poll

  datatype Event = SendPanicked | SentOk | RecvPanicked | Received(m: nat) | Ready(b: bool)

  /**
   What both forms share. `active` names the thread between winning its race and finishing; `sent`,
   `received` and `dropped` are the ledger of messages, `log` is what the calls returned.
   */
  datatype Core = Core(cell: Cell, bad: bool, closed: bool, active: Role, sent: seq<nat>, received: seq<nat>,
                       dropped: seq<nat>, log: seq<Event>, threads: seq<Pc>)
  datatype Call = Send(m: nat) | Receive | IsReady | DropChannel

  function Goto(c: Core, t: nat, pc: Pc): Core
    requires t < |c.threads|
  {
    c.(threads := c.threads[t := pc])
  }

  function Return(c: Core, t: nat, e: Event): Core
    requires t < |c.threads|
  {
    Goto(c, t, Idle).(log := c.log + [e])
  }

  predicate Unborrowed(c: Core) {
    forall t | 0 <= t < |c.threads| :: c.threads[t] == Idle
  }

  predicate TouchesCell(pc: Pc) {
    pc.SendWrite? || pc.RecvRead?
  }

  /** Another thread is about to access the cell at the same time. */
  predicate Races(c: Core, t: nat) {
    exists u | 0 <= u < |c.threads| :: u != t && TouchesCell(c.threads[u])
  }

  function WriteCell(c: Core, t: nat, m: nat): Core
    requires t < |c.threads|
  {
    Goto(c, t, SendStore(m)).(cell := Init(m), bad := c.bad || Races(c, t))
  }

  function Publish(c: Core, t: nat, m: nat): Core
    requires t < |c.threads|
  {
    Return(c, t, SentOk).(active := Nobody, sent := c.sent + [m])
  }

  /** `assume_init_read`: undefined unless the cell is initialised. */
  function ReadCell(c: Core, t: nat): Core
    requires t < |c.threads|
  {
    if c.cell.Init? then
      Return(c, t, Received(c.cell.m))
      .(cell := Moved, active := Nobody, received := c.received + [c.cell.m], bad := c.bad || Races(c, t))
    else Goto(c, t, Idle).(bad := true)
  }

  function Begin(c: Core, t: nat, call: Call): Core
    requires t < |c.threads|
  {
    match call
    case Send(m) => Goto(c, t, SendTry(m))
    case Receive => Goto(c, t, RecvTry)
    case IsReady => Goto(c, t, Poll)
    case DropChannel => c
  }

  /** `Drop`: a message that was never received is dropped. */
  function Close(c: Core, ready: bool): Core {
    if !ready then c.(closed := true)
    else if c.cell.Init? then c.(closed := true, cell := Moved, dropped := c.dropped + [c.cell.m])
    else c.(closed := true, bad := true)
  }

  // ----- One state word -----

  const EMPTY := 0
  const WRITING := 1
  const READY := 2
  const READING := 3

  datatype Single = Single(word: nat, core: Core)

  function SingleStep(s: Single, t: nat, call: Call): Single {
    var c := s.core;
    if c.closed || t >= |c.threads| then s else
    match c.threads[t]
    case Idle =>
      if call.DropChannel? then (if Unborrowed(c) then s.(core := Close(c, s.word == READY)) else s)
      else s.(core := Begin(c, t, call))
    case SendTry(m) =>
      if s.word == EMPTY then Single(WRITING, Goto(c, t, SendWrite(m)).(active := By(t)))
      else s.(core := Return(c, t, SendPanicked))
    case SendWrite(m) => s.(core := WriteCell(c, t, m))
    case SendStore(m) => Single(READY, Publish(c, t, m))
    case RecvTry =>
      if s.word == READY then Single(READING, Goto(c, t, RecvRead).(active := By(t)))
      else s.(core := Return(c, t, RecvPanicked))
    case RecvRead => s.(core := ReadCell(c, t))
    case Poll => s.(core := Return(c, t, Ready(s.word == READY)))
  }

  // ----- Two flags -----

  datatype Double = Double(inUse: bool, ready: bool, core: Core)

  function DoubleStep(s: Double, t: nat, call: Call): Double {
    var c := s.core;
    if c.closed || t >= |c.threads| then s else
    match c.threads[t]
    case Idle =>
      if call.DropChannel? then (if Unborrowed(c) then s.(core := Close(c, s.ready)) else s)
      else s.(core := Begin(c, t, call))
    case SendTry(m) =>
      // in_use.swap(true)
      if s.inUse then s.(inUse := true, core := Return(c, t, SendPanicked))
      else s.(inUse := true, core := Goto(c, t, SendWrite(m)).(active := By(t)))
    case SendWrite(m) => s.(core := WriteCell(c, t, m))
    case SendStore(m) => s.(ready := true, core := Publish(c, t, m))
    case RecvTry =>
      // ready.swap(false)
      if !s.ready then s.(ready := false, core := Return(c, t, RecvPanicked))
      else s.(ready := false, core := Goto(c, t, RecvRead).(active := By(t)))
    case RecvRead => s.(core := ReadCell(c, t))
    case Poll => s.(core := Return(c, t, Ready(s.ready)))
  }

  function RunSingle(s: Single, sched: seq<(nat, Call)>): Single
    decreases |sched|
  {
    if sched == [] then s else RunSingle(SingleStep(s, sched[0].0, sched[0].1), sched[1..])
  }

  function RunDouble(s: Double, sched: seq<(nat, Call)>): Double
    decreases |sched|
  {
    if sched == [] then s else RunDouble(DoubleStep(s, sched[0].0, sched[0].1), sched[1..])
  }

  function NewCore(n: nat): Core {
    Core(Uninit, false, false, Nobody, [], [], [], [], seq(n, _ => Idle))
  }

  // ----- The invariant of the single-word form -----

  predicate ActivePc(pc: Pc) {
    pc.SendWrite? || pc.SendStore? || pc.RecvRead?
  }

  ghost predicate IsActive(c: Core, t: nat)
    requires t < |c.threads|
  {
    ActivePc(c.threads[t]) <==> c.active == By(t)
  }

  /** The phase of the channel, told by the word, the active thread and the cell. */
  ghost predicate Phase(word: nat, c: Core, pc: Pc) {
    match word
    case 0 => pc == Idle && c.cell == Uninit && c.sent == c.received == c.dropped == []
    case 1 => (pc.SendWrite? || (pc.SendStore? && c.cell == Init(pc.m))) && c.sent == c.received == c.dropped == []
    case 2 =>
      && pc == Idle && |c.sent| == 1 && c.received == []
      && (if c.closed then c.dropped == c.sent else c.dropped == [] && c.cell == Init(c.sent[0]))
    case 3 =>
      && |c.sent| == 1 && c.dropped == []
      && (if pc == Idle then c.received == c.sent else pc.RecvRead? && c.received == [] && c.cell == Init(c.sent[0]))
    case _ => false
  }

  /** Where the active thread is. */
  function ActiveAt(c: Core): Pc {
    if c.active.By? && c.active.t < |c.threads| then c.threads[c.active.t] else Idle
  }

  ghost predicate Inv(s: Single) {
    var c := s.core;
    && Phase(s.word, c, ActiveAt(c))
    && !c.bad
    && (forall t: nat | t < |c.threads| :: IsActive(c, t))
    && (c.active.By? ==> c.active.t < |c.threads| && !c.closed)
  }

  lemma ActiveKept(c: Core, c': Core, t: nat)
    requires forall u: nat | u < |c.threads| :: IsActive(c, u)
    requires t < |c.threads| == |c'.threads| && c'.threads == c.threads[t := c'.threads[t]]
    requires c'.active == c.active || (c.active in {Nobody, By(t)} && c'.active in {Nobody, By(t)})
    requires IsActive(c', t)
    ensures forall u: nat | u < |c'.threads| :: IsActive(c', u)
  {
    forall u: nat | u < |c'.threads|
      ensures IsActive(c', u)
    {
      assert IsActive(c, u);
    }
  }

  /** Calls that begin, and attempts to send or receive. */
  lemma InvCall(s: Single, t: nat, call: Call)
    requires Inv(s) && t < |s.core.threads| && !s.core.closed && !ActivePc(s.core.threads[t])
    requires !(s.core.threads[t].Idle? && call.DropChannel?)
    ensures Inv(SingleStep(s, t, call))
  {
    assert IsActive(s.core, t);
    assert s.core.active.By? ==> IsActive(s.core, s.core.active.t);
    ActiveKept(s.core, SingleStep(s, t, call).core, t);
  }

  lemma InvClose(s: Single)
    requires Inv(s) && !s.core.closed && Unborrowed(s.core)
    ensures Inv(s.(core := Close(s.core, s.word == READY)))
  {
    var c' := Close(s.core, s.word == READY);
    assert s.core.active.By? ==> IsActive(s.core, s.core.active.t);
    forall u: nat | u < |c'.threads|
      ensures IsActive(c', u)
    {
      assert IsActive(s.core, u);
    }
  }

  lemma InvActive(s: Single, t: nat, call: Call)
    requires Inv(s) && t < |s.core.threads| && !s.core.closed && ActivePc(s.core.threads[t])
    ensures Inv(SingleStep(s, t, call))
  {
    assert IsActive(s.core, t);
    assert forall u: nat | u < |s.core.threads| && u != t :: IsActive(s.core, u) && !ActivePc(s.core.threads[u]);
    assert !Races(s.core, t);
    ActiveKept(s.core, SingleStep(s, t, call).core, t);
  }

  lemma StepInv(s: Single, t: nat, call: Call)
    requires Inv(s)
    ensures Inv(SingleStep(s, t, call))
  {
    if t < |s.core.threads| && !s.core.closed {
      if ActivePc(s.core.threads[t]) {
        InvActive(s, t, call);
      } else if s.core.threads[t].Idle? && call.DropChannel? {
        if Unborrowed(s.core) { InvClose(s); }
      } else {
        InvCall(s, t, call);
      }
    }
  }

  lemma {:induction false} RunInv(s: Single, sched: seq<(nat, Call)>)
    requires Inv(s)
    ensures Inv(RunSingle(s, sched))
    decreases |sched|
  {
    if sched == [] {
    } else {
      StepInv(s, sched[0].0, sched[0].1);
      RunInv(SingleStep(s, sched[0].0, sched[0].1), sched[1..]);
    }
  }

  // ----- What the calls returned -----

  /** What the callers were told agrees with what happened. */
  ghost predicate LogOk(s: Single) {
    var c := s.core;
    && multiset(c.log)[SentOk] == |c.sent|
    && (forall m: nat :: multiset(c.log)[Received(m)] == multiset(c.received)[m])
    && (SendPanicked in c.log ==> s.word != EMPTY)
    && (Ready(true) in c.log ==> c.sent != [])
  }

  /** An event in the log goes with its effect on the ledger. */
  predicate Justified(s: Single, s': Single, e: Event) {
    var c, c' := s.core, s'.core;
    && (if e.Received? then c'.received == c.received + [e.m] else c'.received == c.received)
    && |c'.sent| == |c.sent| + (if e == SentOk then 1 else 0)
    && (e == SendPanicked ==> s.word != EMPTY)
    && (e == Ready(true) ==> c.sent != [])
  }

  predicate LogStep(s: Single, s': Single) {
    var c, c' := s.core, s'.core;
    && (s.word != EMPTY ==> s'.word != EMPTY)
    && ((c'.log == c.log && c'.sent == c.sent && c'.received == c.received)
        || (|c'.log| == |c.log| + 1 && c'.log == c.log + [c'.log[|c.log|]] && Justified(s, s', c'.log[|c.log|])))
  }

  lemma StepIsLogStep(s: Single, t: nat, call: Call)
    requires Inv(s)
    ensures LogStep(s, SingleStep(s, t, call))
  {
    if t < |s.core.threads| {
      assert IsActive(s.core, t);
    }
  }

  lemma StepLog(s: Single, s': Single)
    requires LogOk(s) && LogStep(s, s')
    ensures LogOk(s')
  {
    var c, c' := s.core, s'.core;
    if c'.log != c.log {
      var e := c'.log[|c.log|];
      assert multiset(c'.log) == multiset(c.log) + multiset{e};
      if e.Received? {
        assert multiset(c'.received) == multiset(c.received) + multiset{e.m};
      }
    }
  }

  lemma {:induction false} RunLog(s: Single, sched: seq<(nat, Call)>)
    requires Inv(s) && LogOk(s)
    ensures LogOk(RunSingle(s, sched))
    decreases |sched|
  {
    if sched == [] {
    } else {
      StepInv(s, sched[0].0, sched[0].1);
      StepIsLogStep(s, sched[0].0, sched[0].1);
      StepLog(s, SingleStep(s, sched[0].0, sched[0].1));
      RunLog(SingleStep(s, sched[0].0, sched[0].1), sched[1..]);
    }
  }

  // ----- Bisimulation -----

  /** WRITING and READING both look like (in_use, not ready). */
  function Flags(s: Single): Double {
    Double(s.word != EMPTY, s.word == READY, s.core)
  }

  lemma StepAgrees(s: Single, t: nat, call: Call)
    requires Inv(s)
    ensures DoubleStep(Flags(s), t, call) == Flags(SingleStep(s, t, call))
  {
    assert t < |s.core.threads| ==> IsActive(s.core, t);
  }

  lemma {:induction false} RunsAgree(s: Single, sched: seq<(nat, Call)>)
    requires Inv(s)
    ensures RunDouble(Flags(s), sched) == Flags(RunSingle(s, sched))
    decreases |sched|
  {
    if sched == [] {
    } else {
      StepAgrees(s, sched[0].0, sched[0].1);
      StepInv(s, sched[0].0, sched[0].1);
      RunsAgree(SingleStep(s, sched[0].0, sched[0].1), sched[1..]);
    }
  }

  /**
   Under every schedule the two forms go through the same states: the same panics, answers, received
   message and drop decision.
   */
  lemma Bisimilar(n: nat, sched: seq<(nat, Call)>)
    ensures var s := RunSingle(Single(EMPTY, NewCore(n)), sched);
      var d := RunDouble(Double(false, false, NewCore(n)), sched);
      d.core == s.core && d.inUse == (s.word != EMPTY) && d.ready == (s.word == READY)
  {
    RunsAgree(Single(EMPTY, NewCore(n)), sched);
  }

  /**
   In both forms at most one send and at most one receive succeed; the message sent is the message that
   leaves, received or dropped; a closed channel keeps nothing; the cell is never read uninitialised,
   read twice or accessed by two threads at once.
   */
  lemma OneMessageAtMost(n: nat, sched: seq<(nat, Call)>)
    ensures var c := RunSingle(Single(EMPTY, NewCore(n)), sched).core;
      && RunDouble(Double(false, false, NewCore(n)), sched).core == c
      && !c.bad
      && (forall t: nat | t < |c.threads| && TouchesCell(c.threads[t]) ::
            !Races(c, t) && (c.threads[t].RecvRead? ==> c.cell.Init?))
      && |c.sent| <= 1 && c.received + c.dropped <= c.sent
      && (c.closed ==> c.received + c.dropped == c.sent)
  {
    Bisimilar(n, sched);
    RunInv(Single(EMPTY, NewCore(n)), sched);
    var c := RunSingle(Single(EMPTY, NewCore(n)), sched).core;
    forall t: nat | t < |c.threads| && TouchesCell(c.threads[t])
      ensures !Races(c, t) && (c.threads[t].RecvRead? ==> c.cell.Init?)
    {
      assert IsActive(c, t);
      assert forall u: nat | u < |c.threads| && u != t :: IsActive(c, u) && !ActivePc(c.threads[u]);
    }
  }

  /** A message was sent, and nobody has begun to receive it. */
  predicate HasMessage(c: Core) {
    c.sent != [] && c.received == [] && forall u | 0 <= u < |c.threads| :: !c.threads[u].RecvRead?
  }

  /** Nobody has begun to send. */
  predicate Untouched(c: Core) {
    c.sent == [] && forall u | 0 <= u < |c.threads| :: !c.threads[u].SendWrite? && !c.threads[u].SendStore?
  }

  lemma WordTells(s: Single)
    requires Inv(s) && !s.core.closed
    ensures (s.word == READY <==> HasMessage(s.core)) && (s.word == EMPTY <==> Untouched(s.core))
  {
    var c := s.core;
    assert c.active.By? ==> IsActive(c, c.active.t);
    forall u: nat | u < |c.threads|
      ensures ActivePc(c.threads[u]) ==> c.active == By(u) && ActiveAt(c) == c.threads[u]
    {
      assert IsActive(c, u);
    }
  }

  /** What the next step of thread `t` answers, as the messages and not the words of the channel tell it. */
  predicate Answers(c: Core, c': Core, t: nat)
    requires t < |c.threads|
  {
    match c.threads[t]
    case Poll => c' == Return(c, t, Ready(HasMessage(c)))
    case RecvTry =>
      if HasMessage(c) then c' == Goto(c, t, RecvRead).(active := By(t)) else c' == Return(c, t, RecvPanicked)
    case SendTry(m) =>
      if Untouched(c) then c' == Goto(c, t, SendWrite(m)).(active := By(t)) else c' == Return(c, t, SendPanicked)
    case SendStore(m) => c'.sent == [m] && HasMessage(c') && c'.log == c.log + [SentOk]
    case RecvRead => c.sent != [] && c'.received == c.sent && c'.log == c.log + [Received(c.sent[0])]
    case _ => true
  }

  lemma SingleAnswers(s: Single, t: nat, call: Call)
    requires Inv(s) && t < |s.core.threads| && !s.core.closed
    ensures Answers(s.core, SingleStep(s, t, call).core, t)
  {
    WordTells(s);
    StepInv(s, t, call);
    assert IsActive(s.core, t);
    WordTells(if s.core.threads[t].SendStore? then SingleStep(s, t, call) else s);
  }

  /**
   In both forms every call answers as it should: is_ready and receive see a message if and only if one was sent
   that nobody has begun to receive, send succeeds if and only if nobody has begun to send, a send that has
   succeeded makes its message ready, and what receive returns is that message.
   */
  lemma EveryAnswerIsRight(n: nat, sched: seq<(nat, Call)>, t: nat, call: Call)
    requires var c := RunSingle(Single(EMPTY, NewCore(n)), sched).core; t < |c.threads| && !c.closed
    ensures var s := RunSingle(Single(EMPTY, NewCore(n)), sched);
      var d := RunDouble(Double(false, false, NewCore(n)), sched);
      && d.core == s.core
      && Answers(s.core, SingleStep(s, t, call).core, t) && Answers(s.core, DoubleStep(d, t, call).core, t)
  {
    var s := RunSingle(Single(EMPTY, NewCore(n)), sched);
    RunInv(Single(EMPTY, NewCore(n)), sched);
    RunsAgree(Single(EMPTY, NewCore(n)), sched);
    SingleAnswers(s, t, call);
    StepAgrees(s, t, call);
  }

  /**
   In both forms the calls tell the truth: as many sends succeed as messages are sent, each received
   message is returned once, a send panics only if another one won, and is_ready answers true only if
   there was a message.
   */
  lemma CallsTellTheTruth(n: nat, sched: seq<(nat, Call)>, m: nat)
    ensures var c := RunDouble(Double(false, false, NewCore(n)), sched).core;
      && multiset(c.log)[SentOk] == |c.sent| <= 1
      && multiset(c.log)[Received(m)] == multiset(c.received)[m] == (if c.received == [m] then 1 else 0)
      && (SendPanicked in c.log ==> RunDouble(Double(false, false, NewCore(n)), sched).inUse)
      && (Ready(true) in c.log ==> c.sent != [])
  {
    Bisimilar(n, sched);
    OneMessageAtMost(n, sched);
    RunLog(Single(EMPTY, NewCore(n)), sched);
    var c := RunDouble(Double(false, false, NewCore(n)), sched).core;
    assert |c.received| == 1 ==> c.received == [c.received[0]];
  }
}
