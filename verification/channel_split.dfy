/**
 The one-shot channel that `split` makes reusable: a channel goes through any number of rounds, each
 with one sender and one receiver that borrow it. In the blocking form the receiver parks until the
 sender unparks it; in the other form a receive without a message panics.
 */
module SplitChannel {

  /** The message cell; messages are numbered in the order in which they are written. */
  datatype Cell = Uninit | Init(id: nat) | Moved

  datatype SenderPc = Fresh | Writing | Storing | Unparking | Spent
  datatype ReceiverPc = Waiting | Swapping | Parking | Parked | Reading | Done

  /**
   `tokens` are the threads with an unpark token, `home` is the receiving thread of the round, `mine` is
   the message written in the round, `saw` whether is_ready has answered true to the receiver.
   */
  datatype State = State(ready: bool, cell: Cell, bad: bool, closed: bool,
                         sender: SenderPc, receiver: ReceiverPc, home: nat, tokens: set<nat>, saw: bool,
                         mine: seq<nat>, sent: nat, received: seq<nat>, dropped: seq<nat>, panics: nat)

  datatype Action =
    | Split(t: nat) | DropChannel
    | StartSend | DropSender | SenderStep
    | StartReceive | DropReceiver | IsReady | ReceiverStep(spurious: bool)
    | StrayUnpark(t: nat)

  /** No Sender or Receiver of an earlier round is in the middle of a call. */
  predicate Unborrowed(s: State) {
    (s.sender.Fresh? || s.sender.Spent?) && (s.receiver.Waiting? || s.receiver.Done?)
  }

  /** `Drop`: a message that was sent and not received is dropped. */
  function DropOld(s: State): State {
    if !s.ready then s
    else if s.cell.Init? then s.(cell := Moved, dropped := s.dropped + [s.cell.id])
    else s.(bad := true)
  }

  /** `*self = Self::default()` drops the old channel; the borrows go to a new sender and receiver. */
  function SplitStep(s: State, t: nat): State {
    DropOld(s).(ready := false, cell := Uninit, sender := Fresh, receiver := Waiting, home := t, saw := false,
                mine := [])
  }

  function SenderStepOf(s: State, blocking: bool): State {
    match s.sender
    case Writing =>
      s.(sender := Storing, cell := Init(s.sent), mine := [s.sent], sent := s.sent + 1,
         bad := s.bad || s.receiver.Reading?)
    case Storing => s.(sender := if blocking then Unparking else Spent, ready := true)
    case Unparking => s.(sender := Spent, tokens := s.tokens + {s.home})
    case _ => s
  }

  function SwapStep(s: State, blocking: bool): State {
    if s.ready then s.(ready := false, receiver := Reading)
    else if blocking then s.(ready := false, receiver := Parking)
    else s.(ready := false, receiver := Done, panics := s.panics + 1)
  }

  /** `park` consumes a token, or blocks until there is one; it may also return spuriously. */
  function ReceiverStepOf(s: State, blocking: bool, spurious: bool): State {
    match s.receiver
    case Swapping => SwapStep(s, blocking)
    case Parking =>
      if s.home in s.tokens then s.(receiver := Swapping, tokens := s.tokens - {s.home}) else s.(receiver := Parked)
    case Parked =>
      if s.home in s.tokens then s.(receiver := Swapping, tokens := s.tokens - {s.home})
      else if spurious then s.(receiver := Swapping) else s
    case Reading =>
      if s.cell.Init? then
        s.(receiver := Done, cell := Moved, received := s.received + [s.cell.id], bad := s.bad || s.sender.Writing?)
      else s.(receiver := Done, bad := true)
    case _ => s
  }

  function Step(s: State, blocking: bool, a: Action): State {
    if s.closed then s else
    match a
    case Split(t) => if Unborrowed(s) then SplitStep(s, t) else s
    case DropChannel => if Unborrowed(s) then DropOld(s).(closed := true) else s
    case StartSend => if s.sender.Fresh? then s.(sender := Writing) else s
    case DropSender => if s.sender.Fresh? then s.(sender := Spent) else s
    case SenderStep => SenderStepOf(s, blocking)
    case StartReceive => if s.receiver.Waiting? then s.(receiver := Swapping) else s
    case DropReceiver => if s.receiver.Waiting? then s.(receiver := Done) else s
    case IsReady => if s.receiver.Waiting? && !blocking then s.(saw := s.ready) else s
    case ReceiverStep(spurious) => ReceiverStepOf(s, blocking, spurious)
    case StrayUnpark(t) => s.(tokens := s.tokens + {t})
  }

  function Run(s: State, blocking: bool, sched: seq<Action>): State
    decreases |sched|
  {
    if sched == [] then s else Run(Step(s, blocking, sched[0]), blocking, sched[1..])
  }

  /** `Channel::default()`, before the first split. */
  const NEW := State(false, Uninit, false, false, Spent, Done, 0, {}, false, [], 0, [], [], 0)

  // ----- The invariant -----

  function Ids(n: nat): multiset<nat> {
    if n == 0 then multiset{} else Ids(n - 1) + multiset{n - 1}
  }

  function Held(c: Cell): multiset<nat> {
    if c.Init? then multiset{c.id} else multiset{}
  }

  /** Every message ever written is in the cell, received or dropped, once. */
  ghost predicate Conserved(s: State) {
    multiset(s.received) + multiset(s.dropped) + Held(s.cell) == Ids(s.sent)
  }

  /** Sender and receiver agree on the cell. */
  predicate Agree(s: State) {
    && (s.sender.Fresh? || s.sender.Writing? ==> s.mine == [] && !s.ready && !s.cell.Init? && !s.receiver.Reading?)
    && (s.mine == [] ==>
          !s.ready && !s.cell.Init? && !s.sender.Storing? && !s.sender.Unparking? && !s.receiver.Reading?)
    && (s.sender.Storing? ==> |s.mine| == 1 && !s.ready && s.cell == Init(s.mine[0]) && !s.receiver.Reading?)
    && (s.sender.Unparking? ==> |s.mine| == 1)
    && |s.mine| <= 1
    && (s.ready && !s.closed ==> |s.mine| == 1 && s.cell == Init(s.mine[0]) && !s.receiver.Reading?)
    && (s.receiver.Reading? ==> |s.mine| == 1 && s.cell == Init(s.mine[0]) && !s.ready)
    && (s.cell.Init? && !s.closed ==> s.ready || s.sender.Storing? || s.receiver.Reading?)
  }

  /** A published message waits for the receiver, who is about to be woken if it blocks. */
  predicate WillWake(s: State, blocking: bool) {
    var open := s.receiver.Waiting? || s.receiver.Swapping? || s.receiver.Parking? || s.receiver.Parked?;
    && (|s.mine| == 1 && !s.sender.Storing? && open ==> s.ready || s.closed)
    && (s.ready && (s.receiver.Parking? || s.receiver.Parked?) ==> s.home in s.tokens || s.sender.Unparking?)
    && (s.sender.Unparking? || s.receiver.Parking? || s.receiver.Parked? ==> blocking)
    && (s.saw ==> !blocking)
    && (s.saw && (s.receiver.Waiting? || s.receiver.Swapping?) ==> s.ready || s.closed)
    && (s.closed ==> Unborrowed(s))
  }

  ghost predicate Inv(s: State, blocking: bool) {
    Conserved(s) && Agree(s) && WillWake(s, blocking) && !s.bad && (s.closed ==> !s.cell.Init?)
  }

  predicate SameLedger(s: State, s': State) {
    s'.received == s.received && s'.dropped == s.dropped && s'.sent == s.sent && Held(s'.cell) == Held(s.cell)
  }

  /** A step leaves the ledger alone, writes a message, or moves the one in the cell out to a receiver or drops it. */
  predicate LedgerStep(s: State, s': State) {
    || SameLedger(s, s')
    || (!s.cell.Init? && s'.cell == Init(s.sent) && s'.sent == s.sent + 1 && s'.received == s.received
        && s'.dropped == s.dropped)
    || (s.cell.Init? && !s'.cell.Init? && s'.sent == s.sent
        && ((s'.received == s.received + [s.cell.id] && s'.dropped == s.dropped)
            || (s'.received == s.received && s'.dropped == s.dropped + [s.cell.id])))
  }

  lemma StepIsLedgerStep(s: State, blocking: bool, a: Action)
    requires Agree(s) && WillWake(s, blocking)
    ensures LedgerStep(s, Step(s, blocking, a))
  {
  }

  lemma LedgerStepConserves(s: State, s': State)
    requires Conserved(s) && LedgerStep(s, s')
    ensures Conserved(s')
  {
    if s.cell.Init? {
      assert multiset(s.received + [s.cell.id]) == multiset(s.received) + multiset{s.cell.id};
      assert multiset(s.dropped + [s.cell.id]) == multiset(s.dropped) + multiset{s.cell.id};
    }
  }

  lemma StepAgrees(s: State, blocking: bool, a: Action)
    requires Agree(s) && WillWake(s, blocking) && !s.bad && (s.closed ==> !s.cell.Init?)
    ensures var s' := Step(s, blocking, a); Agree(s') && !s'.bad && (s'.closed ==> !s'.cell.Init?)
  {
  }

  lemma StepWakes(s: State, blocking: bool, a: Action)
    requires Agree(s) && WillWake(s, blocking)
    ensures WillWake(Step(s, blocking, a), blocking)
  {
  }

  lemma StepInv(s: State, blocking: bool, a: Action)
    requires Inv(s, blocking)
    ensures Inv(Step(s, blocking, a), blocking)
  {
    StepIsLedgerStep(s, blocking, a);
    LedgerStepConserves(s, Step(s, blocking, a));
    StepAgrees(s, blocking, a);
    StepWakes(s, blocking, a);
  }

  lemma {:induction false} RunInv(s: State, blocking: bool, sched: seq<Action>)
    requires Inv(s, blocking)
    ensures Inv(Run(s, blocking, sched), blocking)
    decreases |sched|
  {
    if sched == [] {
    } else {
      StepInv(s, blocking, sched[0]);
      RunInv(Step(s, blocking, sched[0]), blocking, sched[1..]);
    }
  }

  lemma {:induction false} IdsCount(n: nat, id: nat)
    ensures Ids(n)[id] == if id < n then 1 else 0
  {
    if n > 0 {
      IdsCount(n - 1, id);
    }
  }

  // ----- What every run keeps -----

  /**
   Over any number of rounds every message is, exactly once, either still in the channel, moved out to a
   receiver or dropped by a later split or the final drop; after the final drop none is left. The cell is
   never read uninitialised, read twice or accessed by both sides at once.
   */
  lemma MessagesAreConserved(blocking: bool, sched: seq<Action>, id: nat)
    ensures var s := Run(NEW, blocking, sched);
      && !s.bad
      && (s.receiver.Reading? ==> s.cell.Init? && !s.sender.Writing?) && (s.sender.Writing? ==> !s.cell.Init?)
      && multiset(s.received)[id] + multiset(s.dropped)[id] + Held(s.cell)[id] == (if id < s.sent then 1 else 0)
      && (s.closed ==> multiset(s.received)[id] + multiset(s.dropped)[id] == if id < s.sent then 1 else 0)
  {
    RunInv(NEW, blocking, sched);
    IdsCount(Run(NEW, blocking, sched).sent, id);
  }

  /** A receive that follows a true answer of is_ready does not panic. */
  lemma ReadyMeansNoPanic(sched: seq<Action>)
    requires var s := Run(NEW, false, sched); s.saw && s.receiver.Swapping?
    ensures Step(Run(NEW, false, sched), false, ReceiverStep(false)).receiver.Reading?
  {
    RunInv(NEW, false, sched);
  }

  /** Send has returned, and the receiver of the round is in its call. */
  predicate Sent(s: State) {
    && !s.closed && s.sender.Spent? && |s.mine| == 1
    && (s.receiver.Swapping? || s.receiver.Parking? || s.receiver.Parked? || s.receiver.Reading?)
  }

  /** The steps that the receiver still needs. */
  function Left(pc: ReceiverPc): nat {
    match pc
    case Parking | Parked => 3
    case Swapping => 2
    case Reading => 1
    case _ => 0
  }

  /** How often the receiver gets its turn, whatever the others do in between. */
  function Turns(sched: seq<Action>): nat {
    if sched == [] then 0 else (if sched[0].ReceiverStep? then 1 else 0) + Turns(sched[1..])
  }

  /** Every turn of the receiver counts, and nothing else sets it back. */
  lemma SentStep(s: State, a: Action)
    requires Agree(s) && WillWake(s, true) && Sent(s)
    ensures var s' := Step(s, true, a);
      if a.ReceiverStep? && s.receiver.Reading? then s'.received == s.received + s.mine
      else
        && Sent(s') && s'.mine == s.mine && s'.received == s.received
        && Left(s'.receiver) == Left(s.receiver) - (if a.ReceiverStep? then 1 else 0)
  {
  }

  lemma ReceivedStep(s: State, a: Action)
    ensures s.received <= Step(s, true, a).received
  {
  }

  lemma {:induction false} ReceivedGrows(s: State, sched: seq<Action>)
    ensures s.received <= Run(s, true, sched).received
    decreases |sched|
  {
    if sched == [] {
    } else {
      ReceivedStep(s, sched[0]);
      ReceivedGrows(Step(s, true, sched[0]), sched[1..]);
    }
  }

  lemma {:induction false} SentIsReceived(s: State, more: seq<Action>)
    requires Inv(s, true) && Sent(s) && Turns(more) >= Left(s.receiver)
    ensures s.received + s.mine <= Run(s, true, more).received
    decreases |more|
  {
    if more == [] {
    } else {
      SentStep(s, more[0]);
      var s' := Step(s, true, more[0]);
      if more[0].ReceiverStep? && s.receiver.Reading? {
        ReceivedGrows(s', more[1..]);
      } else {
        StepInv(s, true, more[0]);
        SentIsReceived(s', more[1..]);
      }
    }
  }

  /**
   Once send has returned, the receiver cannot stay blocked: however its steps are interleaved with those
   of others, with stray unparks, leftover tokens and spurious wakeups, by its third turn it has received
   the message of this round.
   */
  lemma ReceiveReturns(sched: seq<Action>, more: seq<Action>)
    requires Sent(Run(NEW, true, sched)) && Turns(more) >= Left(Run(NEW, true, sched).receiver)
    ensures var s := Run(NEW, true, sched); s.received + s.mine <= Run(s, true, more).received
  {
    RunInv(NEW, true, sched);
    SentIsReceived(Run(NEW, true, sched), more);
  }

  /**
   A parked receiver without token is one to whom nothing was sent in this round, except exactly while the
   sender is on its way from the write to the unpark.
   */
  lemma BlockedMeansNothingSent(sched: seq<Action>)
    requires var s := Run(NEW, true, sched); s.receiver.Parked? && s.home !in s.tokens
    ensures var s := Run(NEW, true, sched); s.mine == [] <==> !s.sender.Storing? && !s.sender.Unparking?
  {
    RunInv(NEW, true, sched);
  }

  /** What receive is about to return is the message written in this round. */
  lemma ReadsThisRound(blocking: bool, sched: seq<Action>)
    requires Run(NEW, blocking, sched).receiver.Reading?
    ensures var s := Run(NEW, blocking, sched);
      |s.mine| == 1 && Step(s, blocking, ReceiverStep(false)).received == s.received + s.mine
  {
    RunInv(NEW, blocking, sched);
  }
}
