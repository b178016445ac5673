/**
 The split channel as code that updates the flag, the message cell and the park tokens in place. Between
 two steps of one side, the other side and other threads do whatever the gap says. A receive comes in turns:
 its own step, and what the others do before its next one. When its turns are used up it goes on alone, until
 it has its answer or is blocked.
 */
module SplitChannelCode {
  import opened SplitChannel

  datatype Side = SendSide | ReceiveSide

  datatype Answer = Some(id: nat) | Panicked | Unfinished

  /** Steps that only the given side can take. */
  predicate TakenBy(side: Side, a: Action) {
    match a
    case StartSend | DropSender | SenderStep => side.SendSide?
    case StartReceive | DropReceiver | IsReady | ReceiverStep(_) => side.ReceiveSide?
    case _ => false
  }

  predicate InCall(s: State, side: Side) {
    if side.SendSide? then !s.sender.Fresh? && !s.sender.Spent? else !s.receiver.Waiting? && !s.receiver.Done?
  }

  lemma {:induction false} RunSnoc(s: State, blocking: bool, tr: seq<Action>, a: Action)
    ensures Run(s, blocking, tr + [a]) == Step(Run(s, blocking, tr), blocking, a)
    decreases |tr|
  {
    if tr == [] {
      assert (tr + [a])[1..] == [];
    } else {
      assert (tr + [a])[1..] == tr[1..] + [a];
      RunSnoc(Step(s, blocking, tr[0]), blocking, tr[1..], a);
    }
  }

  /** While the sender is in a call, the round goes on and others leave what is its own alone. */
  lemma OthersLeaveSender(s: State, blocking: bool, a: Action)
    requires !s.closed && InCall(s, SendSide) && !TakenBy(SendSide, a)
    ensures var s' := Step(s, blocking, a);
      !s'.closed && s'.home == s.home && s'.sender == s.sender && s'.mine == s.mine && s'.sent == s.sent
  {
    if a.ReceiverStep? {
      assert Step(s, blocking, a) == ReceiverStepOf(s, blocking, a.spurious);
    }
  }

  /** The same for the receiver; a message that was sent stays where it is. */
  lemma OthersLeaveReceiver(s: State, blocking: bool, a: Action)
    requires !s.closed && InCall(s, ReceiveSide) && !TakenBy(ReceiveSide, a)
    ensures var s' := Step(s, blocking, a);
      && !s'.closed && s'.home == s.home && s'.receiver == s.receiver && s'.received == s.received
      && s'.saw == s.saw && (s.ready ==> s'.ready) && (s.sender.Spent? ==> s'.sender.Spent? && s'.mine == s.mine)
  {
    if a.SenderStep? {
      assert Step(s, blocking, a) == SenderStepOf(s, blocking);
    }
  }

  // ----- What a receive does in its turns -----

  /** Whether `park` returns spuriously in the own step, and what the others do before the next one. */
  datatype Turn = Turn(spurious: bool, others: seq<Action>)

  /** The steps of a gap that are not the side's own. */
  function Meanwhile(s: State, blocking: bool, side: Side, gap: seq<Action>): State
    decreases |gap|
  {
    if gap == [] then s
    else Meanwhile(if TakenBy(side, gap[0]) then s else Step(s, blocking, gap[0]), blocking, side, gap[1..])
  }

  /** A call of send: the write, the store, and the unpark if the receiver may be parked. */
  function SendCall(s: State, blocking: bool, first: seq<Action>, second: seq<Action>, third: seq<Action>): State {
    var s1 := Step(Meanwhile(Step(s, blocking, StartSend), blocking, SendSide, first), blocking, SenderStep);
    var s2 := Step(Meanwhile(s1, blocking, SendSide, second), blocking, SenderStep);
    if blocking then Step(Meanwhile(s2, blocking, SendSide, third), blocking, SenderStep) else s2
  }

  /** What a receive leaves to the sender. */
  predicate Kept(s: State, s': State) {
    s'.saw == s.saw && (s.ready ==> s'.ready) && (s.sender.Spent? ==> s'.sender.Spent? && s'.mine == s.mine)
  }

  /** Nobody has unparked the receiver. */
  predicate Blocked(s: State) {
    s.receiver.Parked? && s.home !in s.tokens
  }

  /** The receiver cannot go on by itself. */
  predicate Stops(s: State) {
    s.closed || !InCall(s, ReceiveSide) || Blocked(s)
  }

  function OwnStep(s: State, blocking: bool, turns: seq<Turn>, g: nat): State {
    Step(s, blocking, ReceiverStep(g < |turns| && turns[g].spurious))
  }

  function Pause(s: State, blocking: bool, turns: seq<Turn>, g: nat): State {
    if g < |turns| then Meanwhile(s, blocking, ReceiveSide, turns[g].others) else s
  }

  function Next(turns: seq<Turn>, g: nat): nat {
    if g < |turns| then g + 1 else g
  }

  /** What a receiver that is alone has left to do. */
  function Alone(s: State): nat {
    (if s.home in s.tokens then 10 else 0) +
    match s.receiver
    case Swapping => 3
    case Parking => 2
    case Parked | Reading => 1
    case _ => 0
  }

  lemma AloneStep(s: State, blocking: bool)
    requires !Stops(s)
    ensures Alone(Step(s, blocking, ReceiverStep(false))) < Alone(s)
  {
  }

  /** The receiver takes its turns and then goes on alone. */
  function Finish(s: State, blocking: bool, turns: seq<Turn>, from: nat): State
    decreases if from < |turns| then |turns| - from else 0, Alone(s)
  {
    if !InCall(s, ReceiveSide) || (from >= |turns| && Stops(s)) then s else
    var s1 := OwnStep(s, blocking, turns, from);
    if !InCall(s1, ReceiveSide) then s1 else
    assert from >= |turns| ==> Alone(s1) < Alone(s) by { if from >= |turns| { AloneStep(s, blocking); } }
    Finish(Pause(s1, blocking, turns, from), blocking, turns, Next(turns, from))
  }

  /** The call has begun. */
  function Begun(s: State, blocking: bool, first: seq<Action>): State {
    Meanwhile(Step(s, blocking, StartReceive), blocking, ReceiveSide, first)
  }

  class Channel {
    const blocking: bool
    var ready: bool
    var cell: Cell
    var bad: bool
    var closed: bool
    var sender: SenderPc
    var receiver: ReceiverPc
    var home: nat
    var tokens: set<nat>
    var saw: bool
    var mine: seq<nat>
    var sent: nat
    var received: seq<nat>
    var dropped: seq<nat>
    var panics: nat
    ghost var trace: seq<Action>

    function Abs(): State
      reads this
    {
      State(ready, cell, bad, closed, sender, receiver, home, tokens, saw, mine, sent, received, dropped, panics)
    }

    ghost predicate Valid()
      reads this
    {
      Abs() == Run(NEW, blocking, trace)
    }

    /** `Channel::default()`. */
    constructor (blocking: bool)
      ensures Valid() && this.blocking == blocking && Abs() == NEW
    {
      this.blocking := blocking;
      ready, cell, bad, closed, sender, receiver := false, Uninit, false, false, Spent, Done;
      home, tokens, saw, mine, sent, received, dropped, panics := 0, {}, false, [], 0, [], [], 0;
      trace := [];
    }

    lemma Known()
      requires Valid()
      ensures Inv(Abs(), blocking)
    {
      RunInv(NEW, blocking, trace);
    }

    ghost method Record(before: State, a: Action)
      requires before == Run(NEW, blocking, trace) && Abs() == Step(before, blocking, a)
      modifies this`trace
      ensures Valid() && trace == old(trace) + [a]
    {
      RunSnoc(NEW, blocking, trace, a);
      trace := trace + [a];
    }

    method RestoreLedger(s: State)
      modifies this`tokens, this`saw, this`mine, this`sent, this`received, this`dropped, this`panics
      ensures tokens == s.tokens && saw == s.saw && mine == s.mine && sent == s.sent
      ensures received == s.received && dropped == s.dropped && panics == s.panics
    {
      tokens, saw, mine, sent := s.tokens, s.saw, s.mine, s.sent;
      received, dropped, panics := s.received, s.dropped, s.panics;
    }

    method Restore(s: State)
      modifies this
      ensures Abs() == s && trace == old(trace)
    {
      ready, cell, bad, closed := s.ready, s.cell, s.bad, s.closed;
      sender, receiver, home := s.sender, s.receiver, s.home;
      RestoreLedger(s);
    }

    method Others(side: Side, gap: seq<Action>)
      requires Valid() && !closed && InCall(Abs(), side)
      modifies this
      ensures Valid() && old(trace) <= trace && !closed && home == old(home)
      ensures side.SendSide? ==> sender == old(sender) && mine == old(mine) && sent == old(sent)
      ensures side.ReceiveSide? ==> receiver == old(receiver) && received == old(received) && Kept(old(Abs()), Abs())
      ensures Abs() == Meanwhile(old(Abs()), blocking, side, gap)
    {
      for i := 0 to |gap|
        invariant Valid() && old(trace) <= trace && !closed && home == old(home)
        invariant side.SendSide? ==> sender == old(sender) && mine == old(mine) && sent == old(sent)
        invariant side.ReceiveSide? ==> receiver == old(receiver) && received == old(received)
        invariant side.ReceiveSide? ==> Kept(old(Abs()), Abs())
        invariant Meanwhile(Abs(), blocking, side, gap[i..]) == Meanwhile(old(Abs()), blocking, side, gap)
      {
        assert gap[i..][1..] == gap[i + 1..];
        if !TakenBy(side, gap[i]) {
          ghost var before := Abs();
          if side.SendSide? {
            OthersLeaveSender(before, blocking, gap[i]);
          } else {
            OthersLeaveReceiver(before, blocking, gap[i]);
          }
          var s := Step(Abs(), blocking, gap[i]);
          Restore(s);
          Record(before, gap[i]);
        }
      }
    }

    /** `*self = Self::default()`: a message of the round before that nobody received is dropped, and no other. */
    method DropMessage()
      requires Valid() && !closed && Unborrowed(Abs())
      modifies this`cell, this`dropped
      ensures Abs() == DropOld(old(Abs())) && !cell.Init?
      ensures dropped == if old(ready) then old(dropped) + old(mine) else old(dropped)
    {
      Known();
      if ready {
        dropped := dropped + [cell.id];
        cell := Moved;
      }
    }

    method Restart(t: nat)
      requires Valid() && !closed && Unborrowed(Abs())
      modifies this`ready, this`cell, this`sender, this`receiver, this`home, this`saw, this`mine, this`dropped
      ensures Abs() == SplitStep(old(Abs()), t)
      ensures dropped == if old(ready) then old(dropped) + old(mine) else old(dropped)
    {
      DropMessage();
      ready, cell, sender, receiver, home, saw, mine := false, Uninit, Fresh, Waiting, t, false, [];
    }

    /** A new round, in which thread `t` receives. */
    method Split(t: nat)
      requires Valid() && !closed && Unborrowed(Abs())
      modifies this
      ensures Valid() && old(trace) <= trace && !closed
      ensures sender.Fresh? && receiver.Waiting? && home == t && !ready && mine == [] && cell == Uninit
      ensures received == old(received) && sent == old(sent)
      ensures dropped == if old(ready) then old(dropped) + old(mine) else old(dropped)
      ensures Abs() == Step(old(Abs()), blocking, Action.Split(t))
    {
      ghost var before := Abs();
      Restart(t);
      Record(before, Action.Split(t));
    }

    /** The final drop: afterwards every message ever sent was received or dropped, once. */
    method Drop()
      requires Valid() && !closed && Unborrowed(Abs())
      modifies this
      ensures Valid() && closed && sent == old(sent) && received == old(received)
      ensures multiset(received) + multiset(dropped) == Ids(sent)
      ensures Abs() == Step(old(Abs()), blocking, DropChannel)
    {
      ghost var before := Abs();
      DropMessage();
      closed := true;
      Record(before, DropChannel);
      Known();
    }

    lemma Delivered()
      requires Valid() && !closed && sender.Spent? && |mine| == 1
      ensures receiver.Waiting? || receiver.Swapping? || receiver.Parking? || receiver.Parked? ==>
                ready && cell == Init(mine[0])
      ensures receiver.Parking? || receiver.Parked? ==> home in tokens
    {
      Known();
    }

    /** `message.write(..)`. */
    method Write() returns (id: nat)
      requires Valid() && !closed && sender.Writing?
      modifies this
      ensures Valid() && old(trace) <= trace && !closed && sender.Storing? && home == old(home)
      ensures id == old(sent) && sent == id + 1 && mine == [id] && Abs() == Step(old(Abs()), blocking, SenderStep)
    {
      ghost var before := Abs();
      Known();
      id := sent;
      cell := Init(id);
      mine, sent, sender := [id], sent + 1, Storing;
      Record(before, SenderStep);
    }

    /** `ready.store(true)`. */
    method Store()
      requires Valid() && !closed && sender.Storing?
      modifies this
      ensures Valid() && old(trace) <= trace && !closed && home == old(home) && mine == old(mine) && sent == old(sent)
      ensures sender == (if blocking then Unparking else Spent) && Abs() == Step(old(Abs()), blocking, SenderStep)
    {
      ghost var before := Abs();
      ready := true;
      sender := if blocking then Unparking else Spent;
      Record(before, SenderStep);
    }

    /** `receiving_thread.unpark()`. */
    method Unpark()
      requires Valid() && !closed && sender.Unparking?
      modifies this
      ensures Valid() && old(trace) <= trace && !closed && home == old(home) && mine == old(mine) && sent == old(sent)
      ensures sender.Spent? && home in tokens && Abs() == Step(old(Abs()), blocking, SenderStep)
    {
      ghost var before := Abs();
      tokens := tokens + {home};
      sender := Spent;
      Record(before, SenderStep);
    }

    /** The store, and the unpark if the receiver may be parked. */
    method Publish(third: seq<Action>)
      requires Valid() && !closed && sender.Storing?
      modifies this
      ensures Valid() && old(trace) <= trace && !closed && home == old(home) && mine == old(mine) && sent == old(sent)
      ensures sender.Spent?
      ensures var s := Step(old(Abs()), blocking, SenderStep);
        Abs() == if blocking then Step(Meanwhile(s, blocking, SendSide, third), blocking, SenderStep) else s
    {
      Store();
      if blocking {
        Others(SendSide, third);
        Unpark();
      }
    }

    /** A receiver that has not received yet finds the message of this send. */
    method Send(first: seq<Action>, second: seq<Action>, third: seq<Action>) returns (id: nat)
      requires Valid() && !closed && sender.Fresh?
      modifies this
      ensures Valid() && old(trace) <= trace && !closed && sender.Spent? && home == old(home)
      ensures id == old(sent) && sent == id + 1 && mine == [id]
      ensures receiver.Waiting? || receiver.Swapping? || receiver.Parking? || receiver.Parked? ==>
                ready && cell == Init(id)
      ensures receiver.Parking? || receiver.Parked? ==> home in tokens
      ensures Abs() == SendCall(old(Abs()), blocking, first, second, third)
    {
      ghost var before := Abs();
      sender := Writing;
      Record(before, StartSend);
      Others(SendSide, first);
      id := Write();
      Others(SendSide, second);
      Publish(third);
      Delivered();
    }

    /** Whether a receive would panic now. */
    method AskReady() returns (b: bool)
      requires Valid() && !closed && receiver.Waiting? && !blocking
      modifies this
      ensures Valid() && old(trace) <= trace && !closed && receiver.Waiting?
      ensures b == ready == old(ready) && Abs() == old(Abs()).(saw := b)
    {
      ghost var before := Abs();
      b := ready;
      saw := b;
      Record(before, IsReady);
    }

    /** The own step did not end the call; now the others take theirs. */
    method EndTurn(turns: seq<Turn>, g: nat, ghost before: State, ghost goal: State) returns (next: nat)
      requires Valid() && !closed && InCall(Abs(), ReceiveSide) && Finish(before, blocking, turns, g) == goal
      requires InCall(before, ReceiveSide) && (g >= |turns| ==> !Stops(before))
      requires Abs() == OwnStep(before, blocking, turns, g)
      modifies this
      ensures Valid() && old(trace) <= trace && !closed && home == old(home)
      ensures receiver == old(receiver) && received == old(received) && Kept(old(Abs()), Abs())
      ensures next == Next(turns, g) && Finish(Abs(), blocking, turns, next) == goal
      ensures g >= |turns| ==> Abs() == old(Abs()) && Alone(Abs()) < Alone(before)
    {
      next := Next(turns, g);
      if g < |turns| {
        Others(ReceiveSide, turns[g].others);
      } else {
        AloneStep(before, blocking);
      }
    }

    /** `ready.swap(false)`. */
    method Swap(ghost spurious: bool) returns (ok: bool)
      requires Valid() && !closed && receiver.Swapping?
      modifies this
      ensures Valid() && old(trace) <= trace && !closed && received == old(received)
      ensures ok == old(ready) && home == old(home) && sender == old(sender) && mine == old(mine) && saw == old(saw)
      ensures receiver == if ok then Reading else if blocking then Parking else Done
      ensures Abs() == Step(old(Abs()), blocking, ReceiverStep(spurious))
    {
      ghost var before := Abs();
      ok := ready;
      ready := false;
      if ok {
        receiver := Reading;
      } else if blocking {
        receiver := Parking;
      } else {
        receiver := Done;
        panics := panics + 1;
      }
      Record(before, ReceiverStep(spurious));
    }

    /** The swap, and what the others do before the next step of the receiver. */
    method SwapTurn(turns: seq<Turn>, g: nat, ghost goal: State) returns (ok: bool, next: nat)
      requires Valid() && !closed && receiver.Swapping? && Finish(Abs(), blocking, turns, g) == goal
      modifies this
      ensures Valid() && old(trace) <= trace && !closed && received == old(received) && ok == old(ready)
      ensures saw == old(saw) && (old(sender).Spent? ==> sender.Spent? && mine == old(mine))
      ensures receiver == if ok then Reading else if blocking then Parking else Done
      ensures next == Next(turns, g) && (next == g ==> Alone(Abs()) < old(Alone(Abs())))
      ensures if ok || blocking then Finish(Abs(), blocking, turns, next) == goal else Abs() == goal
    {
      ok := Swap(g < |turns| && turns[g].spurious);
      next := Next(turns, g);
      if ok || blocking {
        next := EndTurn(turns, g, old(Abs()), goal);
      }
    }

    /** `park` returns and uses up the token if there is one. */
    method Wake(spurious: bool)
      requires Valid() && !closed && (home in tokens || (spurious && receiver.Parked?))
      requires receiver.Parking? || receiver.Parked?
      modifies this
      ensures Valid() && old(trace) <= trace && !closed && received == old(received) && Kept(old(Abs()), Abs())
      ensures receiver.Swapping? && home !in tokens && home == old(home)
      ensures Abs() == Step(old(Abs()), blocking, ReceiverStep(spurious))
    {
      ghost var before := Abs();
      tokens := tokens - {home};
      receiver := Swapping;
      Record(before, ReceiverStep(spurious));
    }

    /** `thread::park()` takes the token that is there, or blocks. */
    method Park(spurious: bool)
      requires Valid() && !closed && receiver.Parking?
      modifies this
      ensures Valid() && old(trace) <= trace && !closed && received == old(received) && Kept(old(Abs()), Abs())
      ensures receiver == (if old(home in tokens) then Swapping else Parked) && home == old(home)
      ensures Abs() == Step(old(Abs()), blocking, ReceiverStep(spurious))
    {
      if home in tokens {
        Wake(spurious);
      } else {
        ghost var before := Abs();
        receiver := Parked;
        Record(before, ReceiverStep(spurious));
      }
    }

    /** A turn of a parked receiver: it wakes up if it has a token, or spuriously. */
    method WaitTurn(turns: seq<Turn>, g: nat, ghost goal: State) returns (next: nat)
      requires Valid() && !closed && receiver.Parked? && (g >= |turns| ==> home in tokens)
      requires Finish(Abs(), blocking, turns, g) == goal
      modifies this
      ensures Valid() && old(trace) <= trace && !closed && received == old(received) && Kept(old(Abs()), Abs())
      ensures receiver.Swapping? || (receiver.Parked? && g < |turns|)
      ensures next == Next(turns, g) && Finish(Abs(), blocking, turns, next) == goal
      ensures next == g ==> Alone(Abs()) < old(Alone(Abs()))
    {
      var spurious := g < |turns| && turns[g].spurious;
      if home in tokens || spurious {
        Wake(spurious);
      }
      next := EndTurn(turns, g, old(Abs()), goal);
    }

    /** `thread::park()`, until it returns or nobody is left to unpark the receiver. */
    method ParkTurns(turns: seq<Turn>, g: nat, ghost goal: State) returns (back: bool, next: nat)
      requires Valid() && !closed && receiver.Parking? && Finish(Abs(), blocking, turns, g) == goal
      modifies this
      ensures Valid() && old(trace) <= trace && !closed && received == old(received) && Kept(old(Abs()), Abs())
      ensures (next == g && Alone(Abs()) < old(Alone(Abs()))) || g < next <= |turns|
      ensures back ==> receiver.Swapping? && Finish(Abs(), blocking, turns, next) == goal
      ensures !back ==> Blocked(Abs()) && Abs() == goal
    {
      Park(g < |turns| && turns[g].spurious);
      next := EndTurn(turns, g, old(Abs()), goal);
      while receiver.Parked? && (next < |turns| || home in tokens)
        invariant Valid() && old(trace) <= trace && !closed && received == old(received) && Kept(old(Abs()), Abs())
        invariant (next == g && Alone(Abs()) < old(Alone(Abs()))) || g < next <= |turns|
        invariant receiver.Parked? || receiver.Swapping?
        invariant Finish(Abs(), blocking, turns, next) == goal
        decreases if next < |turns| then |turns| - next else 0, Alone(Abs())
      {
        next := WaitTurn(turns, next, goal);
      }
      back := receiver.Swapping?;
    }

    /** `assume_init_read()`. */
    method Read(ghost spurious: bool) returns (id: nat)
      requires Valid() && !closed && receiver.Reading?
      modifies this
      ensures Valid() && old(trace) <= trace && !closed && !bad && receiver.Done?
      ensures mine == [id] && received == old(received) + [id]
      ensures Abs() == Step(old(Abs()), blocking, ReceiverStep(spurious))
    {
      ghost var before := Abs();
      Known();
      id := cell.id;
      cell := Moved;
      received := received + [id];
      receiver := Done;
      Record(before, ReceiverStep(spurious));
    }

    /** `while !ready.swap(false) { park() }`, in the form without blocking one swap. */
    method AwaitMessage(turns: seq<Turn>, ghost goal: State) returns (ok: bool, next: nat)
      requires Valid() && !closed && receiver.Swapping? && Finish(Abs(), blocking, turns, 0) == goal
      modifies this
      ensures Valid() && old(trace) <= trace && !closed && received == old(received)
      ensures saw == old(saw) && (old(sender).Spent? ==> sender.Spent? && mine == old(mine))
      ensures ok ==> receiver.Reading? && Finish(Abs(), blocking, turns, next) == goal
      ensures !ok ==> Abs() == goal && if blocking then Blocked(Abs()) else receiver.Done?
      ensures old(ready) || !blocking ==> ok == old(ready)
    {
      ok, next := SwapTurn(turns, 0, goal);
      while !ok && blocking
        invariant Valid() && old(trace) <= trace && !closed && received == old(received)
        invariant saw == old(saw) && (old(sender).Spent? ==> sender.Spent? && mine == old(mine))
        invariant receiver == if ok then Reading else if blocking then Parking else Done
        invariant if ok || blocking then Finish(Abs(), blocking, turns, next) == goal else Abs() == goal
        invariant old(ready) || !blocking ==> ok == old(ready)
        decreases if next < |turns| then |turns| - next else 0, Alone(Abs()), !ok
      {
        var back;
        back, next := ParkTurns(turns, next, goal);
        if !back {
          return;
        }
        ok, next := SwapTurn(turns, next, goal);
      }
    }

    /** receive takes its `Receiver`; a true answer of is_ready has not become false. */
    method BeginReceive(first: seq<Action>)
      requires Valid() && !closed && receiver.Waiting?
      modifies this
      ensures Valid() && old(trace) <= trace && !closed && receiver.Swapping? && received == old(received)
      ensures (old(ready) || saw ==> ready) && saw == old(saw)
      ensures old(sender).Spent? ==> sender.Spent? && mine == old(mine)
      ensures Abs() == old(Begun(Abs(), blocking, first))
    {
      ghost var before := Abs();
      receiver := Swapping;
      Record(before, StartReceive);
      Others(ReceiveSide, first);
      Known();
    }

    /** A receiver that is parked without a token waits for a message that no send has delivered. */
    lemma NothingSent()
      requires Valid() && !closed && Blocked(Abs())
      ensures !(sender.Spent? && mine != [])
    {
      Known();
    }

    /** The read of the message, which ends the call. */
    method TakeMessage(turns: seq<Turn>, g: nat, ghost goal: State) returns (id: nat)
      requires Valid() && !closed && receiver.Reading? && Finish(Abs(), blocking, turns, g) == goal
      modifies this
      ensures Valid() && old(trace) <= trace && !closed && receiver.Done? && Abs() == goal
      ensures mine == [id] && received == old(received) + [id]
    {
      id := Read(g < |turns| && turns[g].spurious);
    }

    /**
     The message of this round. Without blocking a panic if there is none, which a true answer of is_ready
     rules out; with blocking the call can be unfinished only if it is parked and nobody has unparked it, and
     then no send has returned in this round.
     */
    method Receive(first: seq<Action>, turns: seq<Turn>) returns (r: Answer)
      requires Valid() && !closed && receiver.Waiting?
      modifies this
      ensures Valid() && old(trace) <= trace && !closed
      ensures r.Some? ==> mine == [r.id] && received == old(received) + [r.id] && receiver.Done?
      ensures !r.Some? ==> received == old(received)
      ensures !blocking ==> (r.Panicked? <==> !old(Begun(Abs(), blocking, first)).ready) && !r.Unfinished?
      ensures r.Panicked? ==> !blocking && !old(ready) && !old(saw)
      ensures r.Unfinished? <==> blocking && Blocked(Abs())
      ensures r.Unfinished? ==> !(sender.Spent? && mine != []) && !(old(sender).Spent? && old(mine) != [])
      ensures Abs() == Finish(old(Begun(Abs(), blocking, first)), blocking, turns, 0)
    {
      BeginReceive(first);
      ghost var goal := Finish(Abs(), blocking, turns, 0);
      var ok, g := AwaitMessage(turns, goal);
      if ok {
        var id := TakeMessage(turns, g, goal);
        r := Some(id);
      } else if blocking {
        NothingSent();
        r := Unfinished;
      } else {
        r := Panicked;
      }
    }
  }
}
