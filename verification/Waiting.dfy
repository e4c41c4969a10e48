/**
 Which calls of a connection wait and which are queued, over every run: what each
 event makes of them, and that a call which is in flight and unsent leaves in the end,
 also when the key was rotated under it.
 */
module Waiting {
  import opened Common
  import opened RelayConnection

  // -------------------------------------------------------------- what each event does

  /** A challenge queues a call that waits for one, or that was sent once under another. */
  predicate IsQueuedBy(f: Flight, news: bytes) {
    f.stage == AwaitingChallenge || (f.stage.Sent? && f.stage.under != news && !f.isResent)
  }

  /** It gives up a call that was sent twice, and the second time under another. */
  predicate IsGivenUpBy(f: Flight, news: bytes) { f.stage.Sent? && f.stage.under != news && f.isResent }

  /** The calls a challenge queues, in the order of their ids, of those below n. */
  function QueuedBy(flights: map<nat, Flight>, news: bytes, n: nat): seq<Outgoing> {
    if n == 0 then []
    else
      QueuedBy(flights, news, n - 1) + (if n - 1 in flights && IsQueuedBy(flights[n - 1], news) then [Call(n - 1)] else [])
  }

  predicate IsSame(c: Client, after: Client, id: nat) {
    && (id in after.flights <==> id in c.flights) && (id in c.flights ==> after.flights[id] == c.flights[id])
    && (id in after.settled <==> id in c.settled) && (id in c.settled ==> after.settled[id] == c.settled[id])
  }

  /** What becomes of a call by a challenge: it is given up, queued, or left as it is. */
  predicate IsToldOf(c: Client, after: Client, id: nat, news: bytes) {
    if id in c.flights && IsGivenUpBy(c.flights[id], news) then
      id !in after.flights && id in after.settled && after.settled[id] == ChallengeRefused
    else if id in c.flights && IsQueuedBy(c.flights[id], news) then
      && id in after.flights
      && after.flights[id] == Flight(c.flights[id].command, Queued, c.flights[id].isResent || c.flights[id].stage.Sent?)
      && (id in after.settled <==> id in c.settled) && (id in c.settled ==> after.settled[id] == c.settled[id])
    else IsSame(c, after, id)
  }

  lemma TellsWaiting(c: Client, id: nat, news: bytes)
    requires id in c.flights && IsQueuedBy(c.flights[id], news)
    ensures var f := c.flights[id];
            Tell(c, id, news) == c.(flights := c.flights[id := Flight(f.command, Queued, f.isResent || f.stage.Sent?)],
                                    outbox := c.outbox + [Call(id)])
  {
    var f := c.flights[id];
    if f.stage.Sent? {
      assert c.flights[id := f.(isResent := true)][id := Flight(f.command, Queued, true)]
          == c.flights[id := Flight(f.command, Queued, true)];
    }
  }

  lemma TellsOther(c: Client, id: nat, news: bytes)
    requires id !in c.flights || !IsQueuedBy(c.flights[id], news)
    ensures Tell(c, id, news)
         == if id in c.flights && IsGivenUpBy(c.flights[id], news) then
              c.(flights := c.flights - {id}, settled := c.settled[id := ChallengeRefused])
            else c
  {
  }

  lemma TellsIt(c: Client, id: nat, news: bytes)
    ensures var after := Tell(c, id, news);
            && after == c.(flights := after.flights, settled := after.settled, outbox := after.outbox)
            && after.outbox == c.outbox + (if id in c.flights && IsQueuedBy(c.flights[id], news) then [Call(id)] else [])
            && IsToldOf(c, after, id, news)
            && forall other: nat :: other != id ==> IsSame(c, after, other)
  {
    if id in c.flights && IsQueuedBy(c.flights[id], news) {
      TellsWaiting(c, id, news);
    } else {
      TellsOther(c, id, news);
      assert c.outbox + [] == c.outbox;
    }
  }

  lemma {:induction false} TellsThose(c: Client, news: bytes, n: nat)
    ensures var after := TellUpTo(Telling(news), c, n);
            && after == c.(flights := after.flights, settled := after.settled, outbox := after.outbox)
            && after.outbox == c.outbox + QueuedBy(c.flights, news, n)
            && (forall id: nat :: id < n ==> IsToldOf(c, after, id, news))
            && (forall id: nat :: n <= id ==> IsSame(c, after, id))
  {
    if n > 0 {
      var before := TellUpTo(Telling(news), c, n - 1);
      var id: nat := n - 1;
      TellsThose(c, news, id);
      TellsIt(before, id, news);
      assert IsSame(c, before, id);
      var after := Tell(before, id, news);
      forall other: nat | other < id
        ensures IsToldOf(c, after, other, news)
      {
        assert IsToldOf(c, before, other, news) && IsSame(before, after, other);
      }
      forall other: nat | n <= other
        ensures IsSame(c, after, other)
      {
        assert IsSame(c, before, other) && IsSame(before, after, other);
      }
    }
  }

  predicate HasKnownIds(c: Client) { forall id :: id in c.flights ==> id < c.nextCallId }

  /** A challenge that is heard is held; every call is told of it, and those it queues join the outbox in order. */
  lemma HearsExactly(c: Client, news: bytes)
    requires HasKnownIds(c)
    ensures var (after, frames) := Step(c, Hears(news));
            && frames == []
            && after == c.(challenge := Some(news), flights := after.flights, settled := after.settled, outbox := after.outbox)
            && after.outbox == c.outbox + QueuedBy(c.flights, news, c.nextCallId)
            && forall id: nat :: IsToldOf(c, after, id, news)
  {
    var held := c.(challenge := Some(news));
    TellsThose(held, news, c.nextCallId);
    var after := Step(c, Hears(news)).0;
    forall id: nat
      ensures IsToldOf(c, after, id, news)
    {
      assert if id < c.nextCallId then IsToldOf(held, after, id, news) else IsSame(held, after, id);
    }
  }

  /** The connection is closed, and every call in flight ended like this. */
  ghost predicate IsClosedBy(c: Client, after: Client, s: Settlement) {
    && after == Client(false, c.keyId, None, map[], c.nextCallId, [], after.lastSent, c.lastAccepted, after.settled)
    && (forall id :: id in after.settled <==> id in c.settled || id in c.flights)
    && forall id :: id in after.settled ==> after.settled[id] == if id in c.flights then s else c.settled[id]
  }

  /** A call in flight ended like this, and nothing else changed. */
  ghost predicate IsEndedBy(c: Client, after: Client, id: nat, s: Settlement) {
    && after == c.(flights := after.flights, settled := after.settled)
    && id !in after.flights && (id in c.flights ==> id in after.settled && after.settled[id] == s)
    && (id !in c.flights ==> after == c)
    && forall other: nat :: other != id ==> IsSame(c, after, other)
  }

  /** A connection opens with a hello in its outbox and no challenge. */
  lemma ConnectsExactly(c: Client)
    ensures Step(c, Connects)
         == (if c.isOpen then c
             else Client(true, c.keyId, None, c.flights, c.nextCallId, [Outgoing.Hello], c.lastSent, c.lastAccepted, c.settled),
             [])
  {
  }

  /** A connection that closes ends every call in flight. */
  lemma ClosesExactly(c: Client)
    ensures Step(c, Closes).1 == [] && Step(c, Closes).0.lastSent == c.lastSent
    ensures IsClosedBy(c, Step(c, Closes).0, ConnectionClosed)
  {
  }

  /** A call ends by its answer or its deadline. */
  lemma EndsExactly(c: Client, id: nat)
    ensures Step(c, Answers(id)).1 == [] && IsEndedBy(c, Step(c, Answers(id)).0, id, Answered)
    ensures Step(c, RunsOut(id)).1 == [] && IsEndedBy(c, Step(c, RunsOut(id)).0, id, TimedOut)
  {
  }

  /** A call on an open connection takes the next id, and is queued at once when a challenge is held. */
  lemma CallsExactly(c: Client, command: string)
    ensures var (after, frames) := Step(c, Calls(command));
            && frames == []
            && if !c.isOpen then after == c
               else if c.challenge.Some? then
                 after == c.(nextCallId := c.nextCallId + 1, outbox := c.outbox + [Call(c.nextCallId)],
                             flights := c.flights[c.nextCallId := Flight(command, Queued, false)])
               else
                 after == c.(nextCallId := c.nextCallId + 1,
                             flights := c.flights[c.nextCallId := Flight(command, AwaitingChallenge, false)])
    ensures Begin(c, command).1 == if c.isOpen then Some(c.nextCallId) else None
  {
  }

  /**
   A newer key is taken, the challenge forgotten, a hello put in the outbox of an open
   connection, and every queued call waits again; an older key changes nothing.
   */
  lemma RotatesExactly(c: Client, keyId: nat)
    ensures var (after, frames) := Step(c, Rotates(keyId));
            && frames == []
            && if keyId <= c.keyId then after == c
               else
                 && after == c.(keyId := keyId, challenge := None, outbox := after.outbox, flights := after.flights)
                 && after.outbox == (if c.isOpen then c.outbox + [Outgoing.Hello] else c.outbox)
                 && (forall id :: id in after.flights <==> id in c.flights)
                 && forall id :: id in c.flights ==>
                      after.flights[id] == Flight(c.flights[id].command,
                        if c.flights[id].stage.Sent? then c.flights[id].stage else AwaitingChallenge, c.flights[id].isResent)
  {
  }

  /** The counter of the next frame. */
  function NextCounter(c: Client): nat {
    if c.keyId in c.lastSent then c.lastSent[c.keyId] + 1 else 1
  }

  /** A hello leaves under the next counter; without a counter for it, or undelivered, it ends the connection. */
  lemma SendsHello(c: Client, isDelivered: bool)
    requires c.outbox != [] && c.outbox[0] == Outgoing.Hello
    ensures var (after, frames) := Step(c, Sends(isDelivered));
            var ctr := NextCounter(c);
            if ctr >= 0x20_0000_0000_0000 then
              frames == [] && after.lastSent == c.lastSent && IsClosedBy(c, after, CounterUnreadable)
            else
              && frames == [HelloFrame(c.keyId, ctr)] && after.lastSent == c.lastSent[c.keyId := ctr]
              && if isDelivered then after == c.(outbox := c.outbox[1..], lastSent := after.lastSent)
                 else IsClosedBy(c, after, ConnectionClosed)
  {
  }

  /**
   The call that is next leaves under the challenge held, if it is still queued; it is
   dropped otherwise. Without a counter, or undelivered, it ends.
   */
  lemma SendsCall(c: Client, isDelivered: bool, id: nat)
    requires c.outbox != [] && c.outbox[0] == Call(id)
    ensures var (after, frames) := Step(c, Sends(isDelivered));
            var ctr, rest := NextCounter(c), c.(outbox := c.outbox[1..]);
            if ctr >= 0x20_0000_0000_0000 then frames == [] && IsEndedBy(rest, after, id, CounterUnreadable)
            else
              var counted := rest.(lastSent := c.lastSent[c.keyId := ctr]);
              if id in c.flights && c.flights[id].stage == Queued && c.challenge.Some? then
                && frames == [CallFrame(c.keyId, ctr, c.challenge.value, id, c.flights[id].command)]
                && if isDelivered then
                     after == counted.(flights :=
                       c.flights[id := Flight(c.flights[id].command, Sent(c.challenge.value), c.flights[id].isResent)])
                   else IsEndedBy(counted, after, id, ConnectionClosed)
              else frames == [] && after == counted
  {
  }

  lemma SendsNothing(c: Client, isDelivered: bool)
    requires c.outbox == []
    ensures Step(c, Sends(isDelivered)) == (c, [])
  {
  }

  // ------------------------------------------------------------------------ every run

  /** A connection that is not open, on which no call was made. */
  predicate IsIdle(c: Client) { IsNew(c) && !c.isOpen && c.outbox == [] }

  /** A call waits only while no challenge is held; queued, it stands in the outbox and a challenge is held. */
  predicate IsPlaced(c: Client, id: nat)
    requires id in c.flights
  {
    && id < c.nextCallId
    && match c.flights[id].stage
       case AwaitingChallenge => c.challenge.None?
       case Queued => c.challenge.Some? && Call(id) in c.outbox
       case Sent(_) => true
  }

  ghost predicate IsInOrder(c: Client) {
    && (!c.isOpen ==> c.flights == map[] && c.outbox == [])
    && forall id :: id in c.flights ==> IsPlaced(c, id)
  }

  lemma {:induction false} QueuedByHas(flights: map<nat, Flight>, news: bytes, n: nat, id: nat)
    requires id < n && id in flights && IsQueuedBy(flights[id], news)
    ensures Call(id) in QueuedBy(flights, news, n)
  {
    if id < n - 1 {
      QueuedByHas(flights, news, n - 1, id);
    }
  }

  lemma {:induction false} NoneQueued(news: bytes, n: nat)
    ensures QueuedBy(map[], news, n) == []
  {
    if n > 0 {
      NoneQueued(news, n - 1);
    }
  }

  lemma HearsInOrder(c: Client, news: bytes)
    requires IsInOrder(c)
    ensures IsInOrder(Step(c, Hears(news)).0)
  {
    HearsExactly(c, news);
    var after := Step(c, Hears(news)).0;
    forall id | id in after.flights
      ensures IsPlaced(after, id)
    {
      assert IsToldOf(c, after, id, news) && IsPlaced(c, id);
      if IsQueuedBy(c.flights[id], news) {
        QueuedByHas(c.flights, news, c.nextCallId, id);
      }
    }
    if !c.isOpen {
      NoneQueued(news, c.nextCallId);
      forall id: nat
        ensures id !in after.flights
      {
        assert IsToldOf(c, after, id, news);
      }
      assert after.flights == map[];
    }
  }

  lemma EndsInOrder(c: Client, after: Client, id: nat, s: Settlement)
    requires IsInOrder(c) && IsEndedBy(c, after, id, s)
    ensures IsInOrder(after)
  {
    forall other | other in after.flights
      ensures IsPlaced(after, other)
    {
      assert IsSame(c, after, other) && IsPlaced(c, other);
    }
    if !c.isOpen {
      assert after.flights == map[];
    }
  }

  lemma RotatesInOrder(c: Client, keyId: nat)
    requires IsInOrder(c)
    ensures IsInOrder(Step(c, Rotates(keyId)).0)
  {
    var after := Step(c, Rotates(keyId)).0;
    RotatesExactly(c, keyId);
    forall id | id in after.flights
      ensures IsPlaced(after, id)
    {
      assert IsPlaced(c, id);
    }
    if !c.isOpen {
      assert after.flights == map[];
    }
  }

  lemma CallsInOrder(c: Client, command: string)
    requires IsInOrder(c)
    ensures IsInOrder(Step(c, Calls(command)).0)
  {
    var after := Step(c, Calls(command)).0;
    CallsExactly(c, command);
    forall id | id in after.flights
      ensures IsPlaced(after, id)
    {
      assert id in c.flights && id != c.nextCallId ==> IsPlaced(c, id);
    }
  }

  lemma SendsInOrder(c: Client, isDelivered: bool)
    requires IsInOrder(c)
    ensures IsInOrder(Step(c, Sends(isDelivered)).0)
  {
    var after := Step(c, Sends(isDelivered)).0;
    if c.outbox == [] {
      SendsNothing(c, isDelivered);
    } else if c.outbox[0] == Outgoing.Hello {
      SendsHello(c, isDelivered);
      forall id | id in after.flights
        ensures IsPlaced(after, id)
      {
        assert IsPlaced(c, id);
      }
    } else {
      var id := c.outbox[0].id;
      SendsCall(c, isDelivered, id);
      forall other | other in after.flights
        ensures IsPlaced(after, other)
      {
        assert other in c.flights && IsPlaced(c, other);
      }
    }
  }

  lemma StepInOrder(c: Client, event: Event)
    requires IsInOrder(c)
    ensures IsInOrder(Step(c, event).0)
  {
    match event {
      case Connects => ConnectsExactly(c);
      case Calls(command) => CallsInOrder(c, command);
      case Hears(news) => HearsInOrder(c, news);
      case Sends(isDelivered) => SendsInOrder(c, isDelivered);
      case Answers(id) =>
        EndsExactly(c, id);
        EndsInOrder(c, Step(c, event).0, id, Answered);
      case RunsOut(id) =>
        EndsExactly(c, id);
        EndsInOrder(c, Step(c, event).0, id, TimedOut);
      case Rotates(keyId) => RotatesInOrder(c, keyId);
      case Closes => ClosesExactly(c);
    }
  }

  /**
   Over every run of a new connection a call in flight waits only while no challenge is
   held, and stands in the outbox, with a challenge held, while it is queued.
   */
  lemma {:induction false} CallsArePlaced(c: Client, events: seq<Event>)
    requires IsIdle(c)
    ensures IsInOrder(Run(c, events).0)
  {
    if events != [] {
      CallsArePlaced(c, events[..|events| - 1]);
      StepInOrder(Run(c, events[..|events| - 1]).0, events[|events| - 1]);
    }
  }

  // --------------------------------------------------------------- unsent at a rotation

  lemma RunGoesOn(c: Client, events: seq<Event>, event: Event)
    ensures var before := Run(c, events);
            Run(c, events + [event]) == (Step(before.0, event).0, before.1 + Step(before.0, event).1)
  {
    assert (events + [event])[..|events|] == events;
  }

  /** A call over stays over: its id is never used again. */
  lemma StepKeepsOut(c: Client, event: Event, id: nat)
    requires IsInOrder(c) && id < c.nextCallId
    ensures id < Step(c, event).0.nextCallId
    ensures id in Step(c, event).0.flights ==> id in c.flights
  {
    match event {
      case Hears(news) =>
        HearsExactly(c, news);
        assert IsToldOf(c, Step(c, event).0, id, news);
      case Sends(isDelivered) => SendKeepsOut(c, isDelivered, id);
      case _ =>
    }
  }

  lemma SendKeepsOut(c: Client, isDelivered: bool, id: nat)
    ensures var after := Step(c, Sends(isDelivered)).0;
            after.nextCallId == c.nextCallId && (id in after.flights ==> id in c.flights)
  {
  }

  /** A call that waits goes on waiting through any event but a challenge. */
  lemma StepKeepsWaiting(c: Client, event: Event, id: nat)
    requires IsInOrder(c) && !event.Hears? && id in c.flights && c.flights[id].stage == AwaitingChallenge
    requires id in Step(c, event).0.flights
    ensures Step(c, event).0.flights[id] == c.flights[id]
  {
    assert IsPlaced(c, id);
  }

  lemma WaitsOneMore(c: Client, event: Event, id: nat, flight: Flight)
    requires IsInOrder(c) && !event.Hears? && id < c.nextCallId && flight.stage == AwaitingChallenge
    requires id in c.flights ==> c.flights[id] == flight
    ensures var after := Step(c, event).0;
            && IsInOrder(after) && id < after.nextCallId && (id in after.flights ==> after.flights[id] == flight)
  {
    StepInOrder(c, event);
    StepKeepsOut(c, event, id);
    if id in Step(c, event).0.flights {
      StepKeepsWaiting(c, event, id);
    }
  }

  lemma {:induction false} RunKeepsWaiting(c: Client, before: seq<Event>, events: seq<Event>, id: nat, flight: Flight)
    requires IsInOrder(Run(c, before).0) && id in Run(c, before).0.flights
    requires Run(c, before).0.flights[id] == flight && flight.stage == AwaitingChallenge
    requires forall i :: 0 <= i < |events| ==> !events[i].Hears?
    ensures var after := Run(c, before + events).0;
            && IsInOrder(after) && id < after.nextCallId && (id in after.flights ==> after.flights[id] == flight)
    decreases |events|
  {
    if events == [] {
      assert before + events == before && IsPlaced(Run(c, before).0, id);
    } else {
      var front, last := events[..|events| - 1], events[|events| - 1];
      RunKeepsWaiting(c, before, front, id, flight);
      WaitsOneMore(Run(c, before + front).0, last, id, flight);
      RunGoesOn(c, before + front, last);
      assert before + events == before + front + [last];
    }
  }

  /**
   A call in flight and unsent when the key is rotated waits from then on, whatever comes
   but a challenge, and the next challenge heard queues it.
   */
  lemma RotatedCallsAreQueued(c: Client, before: seq<Event>, keyId: nat, between: seq<Event>, news: bytes, id: nat)
    requires IsIdle(c) && keyId > Run(c, before).0.keyId
    requires id in Run(c, before).0.flights && !Run(c, before).0.flights[id].stage.Sent?
    requires forall i :: 0 <= i < |between| ==> !between[i].Hears?
    requires id in Run(c, before + [Rotates(keyId)] + between).0.flights
    ensures var flight := Run(c, before).0.flights[id];
            var waiting := Run(c, before + [Rotates(keyId)] + between).0;
            var told := Run(c, before + [Rotates(keyId)] + between + [Hears(news)]).0;
            && waiting.flights[id] == Flight(flight.command, AwaitingChallenge, flight.isResent)
            && id in told.flights && told.flights[id] == Flight(flight.command, Queued, flight.isResent)
            && told.challenge == Some(news) && Call(id) in told.outbox
  {
    var at := Run(c, before).0;
    CallsArePlaced(c, before);
    RunGoesOn(c, before, Rotates(keyId));
    RotatesExactly(at, keyId);
    StepInOrder(at, Rotates(keyId));
    RunKeepsWaiting(c, before + [Rotates(keyId)], between, id, Step(at, Rotates(keyId)).0.flights[id]);
    var waiting := Run(c, before + [Rotates(keyId)] + between).0;
    RunGoesOn(c, before + [Rotates(keyId)] + between, Hears(news));
    HearsExactly(waiting, news);
    assert IsToldOf(waiting, Step(waiting, Hears(news)).0, id, news);
    QueuedByHas(waiting.flights, news, waiting.nextCallId, id);
  }

  function Delivering(n: nat): seq<Event> { seq(n, _ => Sends(true)) }

  /** What stands in front of a queued call leaves, or is dropped, without touching it. */
  lemma {:induction false} LeavesInOrder(c: Client, id: nat, n: nat)
    requires id in c.flights && n <= |c.outbox| && NextCounter(c) + n <= 0x20_0000_0000_0000
    requires forall i :: 0 <= i < n ==> c.outbox[i] != Call(id)
    ensures var after := Run(c, Delivering(n)).0;
            && id in after.flights && after.flights[id] == c.flights[id] && after.challenge == c.challenge
            && after.keyId == c.keyId && after.outbox == c.outbox[n..] && NextCounter(after) == NextCounter(c) + n
  {
    if n > 0 {
      LeavesInOrder(c, id, n - 1);
      var before := Run(c, Delivering(n - 1)).0;
      RunGoesOn(c, Delivering(n - 1), Sends(true));
      assert Delivering(n) == Delivering(n - 1) + [Sends(true)];
      assert before.outbox[0] == c.outbox[n - 1];
      if before.outbox[0] == Outgoing.Hello {
        SendsHello(before, true);
      } else {
        SendsCall(before, true, before.outbox[0].id);
      }
    }
  }

  /** A queued call leaves under the challenge held once it is the first of the outbox, if frames are delivered. */
  lemma QueuedCallsLeave(c: Client, id: nat, n: nat)
    requires id in c.flights && c.flights[id].stage == Queued && c.challenge.Some?
    requires n < |c.outbox| && c.outbox[n] == Call(id) && forall i :: 0 <= i < n ==> c.outbox[i] != Call(id)
    requires NextCounter(c) + n < 0x20_0000_0000_0000
    ensures var (after, frames) := Run(c, Delivering(n + 1));
            && frames != []
            && frames[|frames| - 1]
               == CallFrame(c.keyId, NextCounter(c) + n, c.challenge.value, id, c.flights[id].command)
            && id in after.flights && after.flights[id].stage == Sent(c.challenge.value)
  {
    LeavesInOrder(c, id, n);
    var before := Run(c, Delivering(n)).0;
    assert before.outbox[0] == Call(id);
    RunGoesOn(c, Delivering(n), Sends(true));
    assert Delivering(n + 1) == Delivering(n) + [Sends(true)];
    SendsCall(before, true, id);
  }
}
