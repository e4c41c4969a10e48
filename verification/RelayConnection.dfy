/**
 The phone's side of the challenge: the calls in flight of a connection, when they
 are sent, and how they end, for any challenges, answers and interruptions. Composed
 with the host, what becomes of any number of undisturbed calls.
 */
module RelayConnection {
  import opened Common
  import opened RelayCrypto
  import Frames
  import VectorHost

  datatype Stage = AwaitingChallenge | Queued | Sent(under: bytes)

  datatype Flight = Flight(command: string, stage: Stage, isResent: bool)

  datatype Settlement = Answered | ChallengeRefused | CounterUnreadable | ConnectionClosed | TimedOut

  datatype Outgoing = Hello | Call(id: nat)

  /** A frame that left, before it is sealed. */
  datatype Frame =
    | HelloFrame(keyId: nat, ctr: nat)
    | CallFrame(keyId: nat, ctr: nat, under: bytes, id: nat, command: string)

  /**
   The fields of the actor that calls use, its frame counters by key id, and how calls
   ended.
   */
  datatype Client = Client(
    isOpen: bool, keyId: nat, challenge: Option<bytes>, flights: map<nat, Flight>, nextCallId: nat,
    outbox: seq<Outgoing>, lastSent: map<nat, nat>, lastAccepted: map<nat, nat>, settled: map<nat, Settlement>)

  /** A counter as stored: 0 for a key never used. */
  function Last(counters: map<nat, nat>, keyId: nat): nat { if keyId in counters then counters[keyId] else 0 }

  // -------------------------------------------------------------------- transitions

  /** The start of a connection: a hello goes first. */
  function Connect(c: Client): Client {
    if c.isOpen then c else c.(isOpen := true, challenge := None, outbox := [Hello])
  }

  /** `failPendingCalls` at the end of a connection. */
  function Fail(c: Client, s: Settlement): Client {
    c.(isOpen := false, challenge := None, flights := map[], outbox := [],
       settled := c.settled + map id | id in c.flights :: s)
  }

  /** `settle`: a call ends once. */
  function Settle(c: Client, id: nat, s: Settlement): Client {
    if id in c.flights then c.(flights := c.flights - {id}, settled := c.settled[id := s]) else c
  }

  /** `queue`. */
  function Queue(c: Client, id: nat): Client {
    if id in c.flights then
      c.(flights := c.flights[id := c.flights[id].(stage := Queued)], outbox := c.outbox + [Call(id)])
    else c
  }

  /** `call`: refused when nothing is connected; its deadline may come at any time. */
  function Begin(c: Client, command: string): (Client, Option<nat>) {
    if !c.isOpen then (c, None)
    else
      var id := c.nextCallId;
      var begun := c.(flights := c.flights[id := Flight(command, AwaitingChallenge, false)], nextCallId := id + 1);
      (if c.challenge.Some? then Queue(begun, id) else begun, Some(id))
  }

  /** What a challenge does to one call. */
  function Tell(c: Client, id: nat, news: bytes): Client {
    if id !in c.flights then c
    else
      var flight := c.flights[id];
      match flight.stage
      case AwaitingChallenge => Queue(c, id)
      case Queued => c
      case Sent(under) =>
        if under == news then c
        else if flight.isResent then Settle(c, id, ChallengeRefused)
        else Queue(c.(flights := c.flights[id := flight.(isResent := true)]), id)
  }

  function Telling(news: bytes): (Client, nat) -> Client { (c: Client, id: nat) => Tell(c, id, news) }

  function TellUpTo(tell: (Client, nat) -> Client, c: Client, n: nat): Client {
    if n == 0 then c else tell(TellUpTo(tell, c, n - 1), n - 1)
  }

  /** `heardChallenge`: every call is told, in the order of the ids. */
  function HearChallenge(c: Client, news: bytes): Client {
    TellUpTo(Telling(news), c.(challenge := Some(news)), c.nextCallId)
  }

  /** The next of the outbox: its frame, if it leaves. A counter of the key is spent either way. */
  function SendNext(c: Client): (Client, Option<Frame>) {
    if c.outbox == [] then (c, None)
    else
      var ctr, rest := Last(c.lastSent, c.keyId) + 1, c.(outbox := c.outbox[1..]);
      var counted := rest.(lastSent := c.lastSent[c.keyId := ctr]);
      match c.outbox[0]
      case Hello =>
        if ctr >= COUNTER_LIMIT then (Fail(rest, CounterUnreadable), None)
        else (counted, Some(HelloFrame(c.keyId, ctr)))
      case Call(id) =>
        if ctr >= COUNTER_LIMIT then (Settle(rest, id, CounterUnreadable), None)
        else if id !in c.flights || c.flights[id].stage != Queued || c.challenge.None? then (counted, None)
        else
          var flight, under := c.flights[id], c.challenge.value;
          (counted.(flights := c.flights[id := flight.(stage := Sent(under))]),
           Some(CallFrame(c.keyId, ctr, under, id, flight.command)))
  }

  /** `rotate`: a newer key is taken, and a hello asks for a challenge under it. */
  function Rotate(c: Client, keyId: nat): Client {
    if keyId <= c.keyId then c
    else
      c.(keyId := keyId, challenge := None, outbox := if c.isOpen then c.outbox + [Hello] else c.outbox,
         flights := map id | id in c.flights ::
           if c.flights[id].stage == Queued then c.flights[id].(stage := AwaitingChallenge) else c.flights[id])
  }

  datatype Event =
    | Connects
    | Calls(command: string)
    | Hears(news: bytes)
    | Sends(isDelivered: bool)
    | Answers(id: nat)
    | RunsOut(id: nat)
    | Rotates(keyId: nat)
    | Closes

  /** A frame the socket did not take. */
  function Undelivered(c: Client, f: Frame): Client {
    match f
    case HelloFrame(_, _) => Fail(c, ConnectionClosed)
    case CallFrame(_, _, _, id, _) => Settle(c, id, ConnectionClosed)
  }

  /** A step, and the frames that left in it. */
  function Step(c: Client, event: Event): (Client, seq<Frame>) {
    match event
    case Connects => (Connect(c), [])
    case Calls(command) => (Begin(c, command).0, [])
    case Hears(news) => (HearChallenge(c, news), [])
    case Sends(isDelivered) =>
      var (sent, frame) := SendNext(c);
      if frame.None? then (sent, [])
      else (if isDelivered then sent else Undelivered(sent, frame.value), [frame.value])
    case Answers(id) => (Settle(c, id, Answered), [])
    case RunsOut(id) => (Settle(c, id, TimedOut), [])
    case Rotates(keyId) => (Rotate(c, keyId), [])
    case Closes => (Fail(c, ConnectionClosed), [])
  }

  function Run(c: Client, events: seq<Event>): (Client, seq<Frame>) {
    if events == [] then (c, [])
    else
      var before := Run(c, events[..|events| - 1]);
      var after := Step(before.0, events[|events| - 1]);
      (after.0, before.1 + after.1)
  }

  /** A connection on which no call was made yet. */
  predicate IsNew(c: Client) { c.flights == map[] && c.settled == map[] }

  // -------------------------------------------------------------------------- actor

  class RelayConnection {
    var isOpen: bool
    var keyId: nat
    var challenge: Option<bytes>
    var flights: map<nat, Flight>
    var nextCallId: nat
    var outbox: seq<Outgoing>
    var lastSent: map<nat, nat>
    var lastAccepted: map<nat, nat>
    ghost var settled: map<nat, Settlement>

    ghost function Now(): Client
      reads this
    {
      Client(isOpen, keyId, challenge, flights, nextCallId, outbox, lastSent, lastAccepted, settled)
    }

    method OpenSocket()
      requires !isOpen
      modifies this
      ensures Now() == Connect(old(Now()))
    {
      isOpen := true;
      challenge := None;
      outbox := [Hello];
    }

    method FailPendingCalls(ghost s: Settlement)
      modifies this
      ensures Now() == Fail(old(Now()), s)
    {
      settled := settled + map id | id in flights :: s;
      isOpen, challenge, flights, outbox := false, None, map[], [];
    }

    method SettleCall(id: nat, ghost s: Settlement)
      modifies this
      ensures Now() == Settle(old(Now()), id, s)
    {
      if id in flights {
        settled := settled[id := s];
      }
      flights := flights - {id};
    }

    method QueueCall(id: nat)
      modifies this
      ensures Now() == Queue(old(Now()), id)
    {
      if id in flights {
        flights := flights[id := flights[id].(stage := Queued)];
        outbox := outbox + [Call(id)];
      }
    }

    method BeginCall(command: string) returns (id: Option<nat>)
      modifies this
      ensures (Now(), id) == Begin(old(Now()), command)
    {
      if !isOpen {
        return None;
      }
      id := Some(nextCallId);
      nextCallId := nextCallId + 1;
      flights := flights[id.value := Flight(command, AwaitingChallenge, false)];
      if challenge.Some? {
        QueueCall(id.value);
      }
    }

    method HeardChallenge(news: bytes)
      modifies this
      ensures Now() == HearChallenge(old(Now()), news)
    {
      challenge := Some(news);
      ghost var c, n := Now(), nextCallId;
      for id := 0 to nextCallId
        invariant Now() == TellUpTo(Telling(news), c, id) && nextCallId == n
      {
        TellCall(id, news);
      }
    }

    method TellCall(id: nat, news: bytes)
      modifies this
      ensures Now() == Tell(old(Now()), id, news) && nextCallId == old(nextCallId)
    {
      if id in flights {
        var flight := flights[id];
        match flight.stage {
          case AwaitingChallenge => QueueCall(id);
          case Queued =>
          case Sent(under) =>
            if under != news {
              if flight.isResent {
                SettleCall(id, ChallengeRefused);
              } else {
                flights := flights[id := flight.(isResent := true)];
                QueueCall(id);
              }
            }
        }
      }
    }

    method SendFirst() returns (frame: Option<Frame>)
      requires outbox != []
      modifies this
      ensures (Now(), frame) == SendNext(old(Now()))
    {
      var next, ctr := outbox[0], Last(lastSent, keyId) + 1;
      outbox := outbox[1..];
      if ctr >= COUNTER_LIMIT {
        match next {
          case Hello => FailPendingCalls(CounterUnreadable);
          case Call(id) => SettleCall(id, CounterUnreadable);
        }
        return None;
      }
      lastSent := lastSent[keyId := ctr];
      match next {
        case Hello => frame := Some(HelloFrame(keyId, ctr));
        case Call(id) =>
          if id !in flights || flights[id].stage != Queued || challenge.None? {
            return None;
          }
          flights := flights[id := flights[id].(stage := Sent(challenge.value))];
          frame := Some(CallFrame(keyId, ctr, challenge.value, id, flights[id].command));
      }
    }

    method RotateTo(newer: nat)
      modifies this
      ensures Now() == Rotate(old(Now()), newer)
    {
      if newer <= keyId {
        return;
      }
      keyId := newer;
      challenge := None;
      flights := map id | id in flights ::
        if flights[id].stage == Queued then flights[id].(stage := AwaitingChallenge) else flights[id];
      if isOpen {
        outbox := outbox + [Hello];
      }
    }
  }

  // --------------------------------------------------------------- calls, every run

  predicate IsOf(f: Frame, id: nat) { f.CallFrame? && f.id == id }

  /** How often a call was sent. */
  function Count(log: seq<Frame>, id: nat): nat {
    if log == [] then 0 else Count(log[..|log| - 1], id) + (if IsOf(log[|log| - 1], id) then 1 else 0)
  }

  /** What is known of a call that was sent n times. */
  predicate Accounts(c: Client, id: nat, n: nat) {
    && (id in c.flights ==>
        && id !in c.settled && id < c.nextCallId
        && n == (if c.flights[id].isResent then 1 else 0) + (if c.flights[id].stage.Sent? then 1 else 0))
    && (id in c.settled ==> id < c.nextCallId && n <= 2 && (c.settled[id] == ChallengeRefused ==> n == 2))
    && (id !in c.flights && id !in c.settled ==> n == 0)
  }

  /** An ending that is known stays. */
  predicate KeepsEnding(c: Client, after: Client, id: nat) {
    id in c.settled ==> id in after.settled && after.settled[id] == c.settled[id]
  }

  /** A step that keeps what is known of a call. */
  ghost predicate KeepsAccount(tell: (Client, nat) -> Client, id: nat) {
    forall c, told, n ::
      Accounts(c, id, n) ==> Accounts(tell(c, told), id, n) && KeepsEnding(c, tell(c, told), id)
  }

  lemma TellAccounts(c: Client, told: nat, news: bytes, id: nat, n: nat)
    requires Accounts(c, id, n)
    ensures Accounts(Tell(c, told, news), id, n) && KeepsEnding(c, Tell(c, told, news), id)
  {
  }

  lemma TellingKeepsAccount(news: bytes, id: nat)
    ensures KeepsAccount(Telling(news), id)
  {
    forall c, told, n | Accounts(c, id, n)
      ensures Accounts(Telling(news)(c, told), id, n) && KeepsEnding(c, Telling(news)(c, told), id)
    {
      TellAccounts(c, told, news, id, n);
    }
  }

  lemma {:induction false} TellUpToAccounts(tell: (Client, nat) -> Client, c: Client, upTo: nat, id: nat, n: nat)
    requires KeepsAccount(tell, id) && Accounts(c, id, n)
    ensures Accounts(TellUpTo(tell, c, upTo), id, n) && KeepsEnding(c, TellUpTo(tell, c, upTo), id)
  {
    if upTo > 0 {
      TellUpToAccounts(tell, c, upTo - 1, id, n);
    }
  }

  /** A call in flight may be sent once more only if it was sent before, at most once. */
  lemma SendAccounts(c: Client, id: nat, n: nat)
    requires Accounts(c, id, n)
    ensures var (after, frame) := SendNext(c);
            Accounts(after, id, if frame.Some? && IsOf(frame.value, id) then n + 1 else n) && KeepsEnding(c, after, id)
  {
  }

  lemma EndAccounts(c: Client, f: Frame, id: nat, n: nat)
    requires Accounts(c, id, n) && n <= 2
    ensures Accounts(Undelivered(c, f), id, n) && KeepsEnding(c, Undelivered(c, f), id)
  {
  }

  lemma FailAccounts(c: Client, s: Settlement, id: nat, n: nat)
    requires Accounts(c, id, n) && s != ChallengeRefused
    ensures Accounts(Fail(c, s), id, n) && KeepsEnding(c, Fail(c, s), id)
  {
  }

  lemma RotateAccounts(c: Client, keyId: nat, id: nat, n: nat)
    requires Accounts(c, id, n)
    ensures Accounts(Rotate(c, keyId), id, n) && KeepsEnding(c, Rotate(c, keyId), id)
  {
  }

  lemma BeginAccounts(c: Client, command: string, id: nat, n: nat)
    requires Accounts(c, id, n)
    ensures Accounts(Begin(c, command).0, id, n) && KeepsEnding(c, Begin(c, command).0, id)
  {
  }

  /** Every step but a send leaves no frame, and what is known of a call as it was. */
  lemma QuietAccounts(c: Client, event: Event, id: nat, n: nat)
    requires Accounts(c, id, n) && !event.Sends?
    ensures var (after, frames) := Step(c, event);
            frames == [] && Accounts(after, id, n) && KeepsEnding(c, after, id)
  {
    match event {
      case Calls(command) => BeginAccounts(c, command, id, n);
      case Hears(news) =>
        TellingKeepsAccount(news, id);
        TellUpToAccounts(Telling(news), c.(challenge := Some(news)), c.nextCallId, id, n);
      case Rotates(keyId) => RotateAccounts(c, keyId, id, n);
      case Closes => FailAccounts(c, ConnectionClosed, id, n);
      case _ =>
    }
  }

  lemma CountsFrame(log: seq<Frame>, f: Frame, id: nat)
    ensures Count(log + [f], id) == Count(log, id) + (if IsOf(f, id) then 1 else 0)
  {
    assert (log + [f])[..|log|] == log;
  }

  lemma StepAccounts(c: Client, event: Event, log: seq<Frame>, id: nat)
    requires Accounts(c, id, Count(log, id))
    ensures var (after, frames) := Step(c, event);
            Accounts(after, id, Count(log + frames, id)) && KeepsEnding(c, after, id)
  {
    if event.Sends? {
      SendAccounts(c, id, Count(log, id));
      var (sent, frame) := SendNext(c);
      if frame.Some? {
        CountsFrame(log, frame.value, id);
        EndAccounts(sent, frame.value, id, Count(log + [frame.value], id));
      } else {
        assert log + [] == log;
      }
    } else {
      QuietAccounts(c, event, id, Count(log, id));
      assert log + [] == log;
    }
  }

  lemma {:induction false} RunAccounts(c: Client, events: seq<Event>, id: nat)
    requires IsNew(c)
    ensures Accounts(Run(c, events).0, id, Count(Run(c, events).1, id))
  {
    if events != [] {
      RunAccounts(c, events[..|events| - 1], id);
      var before := Run(c, events[..|events| - 1]);
      StepAccounts(before.0, events[|events| - 1], before.1, id);
    }
  }

  /** Over every run a call is sent at most twice, and refused by its challenge only after it was. */
  lemma SentAtMostTwice(c: Client, events: seq<Event>, id: nat)
    requires IsNew(c)
    ensures var (after, log) := Run(c, events);
            && Count(log, id) <= 2
            && (id in after.settled && after.settled[id] == ChallengeRefused ==> Count(log, id) == 2)
            && (id in after.flights ==> id !in after.settled)
  {
    RunAccounts(c, events, id);
  }

  /** How a call ended never changes. */
  lemma {:induction false} SettledForGood(c: Client, events: seq<Event>, i: nat, id: nat)
    requires IsNew(c) && i <= |events| && id in Run(c, events[..i]).0.settled
    ensures id in Run(c, events).0.settled
    ensures Run(c, events).0.settled[id] == Run(c, events[..i]).0.settled[id]
    decreases |events|
  {
    if i < |events| {
      var init := events[..|events| - 1];
      assert init[..i] == events[..i];
      SettledForGood(c, init, i, id);
      RunAccounts(c, init, id);
      StepAccounts(Run(c, init).0, events[|events| - 1], Run(c, init).1, id);
    } else {
      assert events[..i] == events;
    }
  }

  // ------------------------------------------------------------ counters, every run

  /** No frame is above the stored counter of its key, and under one key each is above those before it. */
  ghost predicate Rise(log: seq<Frame>, lastSent: map<nat, nat>) {
    && (forall i :: 0 <= i < |log| ==> log[i].ctr <= Last(lastSent, log[i].keyId) && log[i].ctr < COUNTER_LIMIT)
    && (forall i, j :: 0 <= i < j < |log| && log[i].keyId == log[j].keyId ==> log[i].ctr < log[j].ctr)
  }

  /** A step counts up under its key for a frame that leaves, and never down. */
  ghost predicate CountsUp(c: Client, after: Client, frames: seq<Frame>) {
    && |frames| <= 1
    && (frames != [] ==>
        && frames[0].keyId == c.keyId && Last(c.lastSent, c.keyId) < frames[0].ctr < COUNTER_LIMIT
        && frames[0].ctr == Last(after.lastSent, c.keyId))
    && Last(c.lastSent, c.keyId) <= Last(after.lastSent, c.keyId)
    && forall k :: k != c.keyId ==> Last(after.lastSent, k) == Last(c.lastSent, k)
  }

  lemma {:induction false} TellingCountsNothing(tell: (Client, nat) -> Client, c: Client, n: nat)
    requires forall d, told :: tell(d, told).lastSent == d.lastSent
    ensures TellUpTo(tell, c, n).lastSent == c.lastSent
  {
    if n > 0 {
      TellingCountsNothing(tell, c, n - 1);
    }
  }

  lemma QuietCountsNothing(c: Client, event: Event)
    requires !event.Sends?
    ensures Step(c, event).0.lastSent == c.lastSent && Step(c, event).1 == []
  {
    if event.Hears? {
      TellingCountsNothing(Telling(event.news), c.(challenge := Some(event.news)), c.nextCallId);
    }
  }

  lemma SendCountsUp(c: Client)
    ensures var (sent, frame) := SendNext(c);
            CountsUp(c, sent, if frame.Some? then [frame.value] else [])
  {
  }

  lemma StepCountsUp(c: Client, event: Event)
    ensures CountsUp(c, Step(c, event).0, Step(c, event).1)
  {
    if event.Sends? {
      SendCountsUp(c);
    } else {
      QuietCountsNothing(c, event);
    }
  }

  lemma StepRises(c: Client, log: seq<Frame>, after: Client, frames: seq<Frame>)
    requires Rise(log, c.lastSent) && CountsUp(c, after, frames)
    ensures Rise(log + frames, after.lastSent)
  {
    var all := log + frames;
    forall i | 0 <= i < |all|
      ensures all[i].ctr <= Last(after.lastSent, all[i].keyId) && all[i].ctr < COUNTER_LIMIT
    {
      assert i < |log| ==> all[i] == log[i];
    }
    forall i, j | 0 <= i < j < |all| && all[i].keyId == all[j].keyId
      ensures all[i].ctr < all[j].ctr
    {
      assert all[i] == log[i];
      assert j < |log| ==> all[j] == log[j];
    }
  }

  lemma {:induction false} RunRises(c: Client, events: seq<Event>)
    ensures Rise(Run(c, events).1, Run(c, events).0.lastSent)
  {
    if events != [] {
      RunRises(c, events[..|events| - 1]);
      var before := Run(c, events[..|events| - 1]);
      var (after, frames) := Step(before.0, events[|events| - 1]);
      StepCountsUp(before.0, events[|events| - 1]);
      StepRises(before.0, before.1, after, frames);
    }
  }

  /** Over every run no two frames of the phone under one key have the same counter or nonce. */
  lemma PhoneNoncesNeverRepeat(c: Client, events: seq<Event>, i: nat, j: nat)
    requires i < j < |Run(c, events).1| && Run(c, events).1[i].keyId == Run(c, events).1[j].keyId
    ensures var log := Run(c, events).1;
            log[i].ctr < log[j].ctr < COUNTER_LIMIT && Frames.Nonce(log[i].ctr) != Frames.Nonce(log[j].ctr)
  {
    RunRises(c, events);
    var log := Run(c, events).1;
    Frames.NonceInjective(log[i].ctr, log[j].ctr);
  }

  // ------------------------------------------------------------ composed with the host

  /** A frame of the host that reaches the phone: dropped unless it is newer than the last one. */
  function Hear(c: Client, e: VectorHost.Entry): Client {
    if !e.Pushed? || e.ctr <= Last(c.lastAccepted, c.keyId) then c
    else
      var accepted := c.(lastAccepted := c.lastAccepted[c.keyId := e.ctr]);
      match e.plaintext
      case Hello => if e.shown.Some? then HearChallenge(accepted, e.shown.value) else accepted
      case Answer(id, _) => if id >= 0 then Settle(accepted, id, Answered) else accepted
      case _ => accepted
  }

  function HearAll(c: Client, entries: seq<VectorHost.Entry>): Client {
    if entries == [] then c else Hear(HearAll(c, entries[..|entries| - 1]), entries[|entries| - 1])
  }

  type Sealer = Frame -> VectorHost.Wire

  /** The next of the outbox goes to the host, and what the host pushes comes back. */
  function Exchange(opener: VectorHost.Opener, seal: Sealer, h: VectorHost.Host, c: Client)
    : (VectorHost.Host, Client)
  {
    var (sent, frame) := SendNext(c);
    match frame
    case None => (h, sent)
    case Some(f) =>
      var e := VectorHost.Receive(opener, h, Some(seal(f)));
      (e.host, HearAll(sent, e.entries))
  }

  type Exchanger = (VectorHost.Host, Client) -> (VectorHost.Host, Client)

  function Exchanging(opener: VectorHost.Opener, seal: Sealer): Exchanger {
    (h: VectorHost.Host, c: Client) => Exchange(opener, seal, h, c)
  }

  /** So many exchanges, one after the other. */
  function Exchanges(exchange: Exchanger, h: VectorHost.Host, c: Client, n: nat): (VectorHost.Host, Client)
    decreases n
  {
    if n == 0 then (h, c)
    else
      var next := exchange(h, c);
      Exchanges(exchange, next.0, next.1, n - 1)
  }

  lemma {:induction false} HearsTheLast(c: Client, entries: seq<VectorHost.Entry>)
    requires entries != [] && forall i :: 0 <= i < |entries| - 1 ==> !entries[i].Pushed?
    ensures HearAll(c, entries) == Hear(c, entries[|entries| - 1])
  {
    var init := entries[..|entries| - 1];
    if init != [] {
      HearsTheLast(c, init);
    }
  }

  // ----------------------------------------------------------- calls told by one hello

  function Outs(ids: seq<nat>): seq<Outgoing> { seq(|ids|, i requires 0 <= i < |ids| => Call(ids[i])) }

  /** The commands of those calls, in that order. */
  function CommandsOf(ids: seq<nat>, commands: map<nat, string>): seq<string>
    requires forall id :: id in ids ==> id in commands
  {
    seq(|ids|, i requires 0 <= i < |ids| => commands[ids[i]])
  }

  /** Calls in flight, all queued: some for the first time, and behind them some again. */
  ghost predicate HoldsCalls(c: Client, under: bytes, first: seq<nat>, again: seq<nat>, commands: map<nat, string>) {
    && c.challenge == Some(under) && c.outbox == Outs(first + again) && Distinct(first + again)
    && (forall id :: id in c.flights <==> id in first + again)
    && (forall id :: id in first + again ==> id < c.nextCallId && id in commands)
    && (forall id :: id in first ==> c.flights[id] == Flight(commands[id], Queued, false))
    && (forall id :: id in again ==> c.flights[id] == Flight(commands[id], Queued, true))
  }

  /** The client of one call, as the host's progress theorem has it. */
  function ClientOf(seal: Sealer, keyId: nat, id: nat, command: string): (nat, bytes) -> VectorHost.Wire {
    (ctr: nat, under: bytes) => seal(CallFrame(keyId, ctr, under, id, command))
  }

  /** The host opens the phone's frames of those calls as what they carry. */
  ghost predicate SealsEach(opener: VectorHost.Opener, seal: Sealer, keyId: nat, commands: map<nat, string>) {
    forall id :: id in commands ==>
      VectorHost.SealsCall(opener, ClientOf(seal, keyId, id, commands[id]), id, commands[id])
  }

  /** Both ends' counters have room for so many frames, and neither end is ahead of the other. */
  predicate InRange(h: VectorHost.Host, c: Client, frames: nat) {
    && h.lastAccepted <= Last(c.lastSent, c.keyId) && Last(c.lastSent, c.keyId) + frames < COUNTER_LIMIT
    && Last(c.lastAccepted, c.keyId) <= h.ctr && h.ctr + frames < COUNTER_LIMIT
  }

  /** The host's challenges are fresh, and enough to draw for the restarts pending. */
  ghost predicate CanAnswer(h: VectorHost.Host, under: bytes) {
    VectorHost.AreFresh(h, under) && |h.draws| >= VectorHost.Drawn(h)
  }

  /** The first call of the outbox, sent. */
  function SentFirst(c: Client, under: bytes, id: nat): Client
    requires id in c.flights && c.outbox != []
  {
    c.(outbox := c.outbox[1..], lastSent := c.lastSent[c.keyId := Last(c.lastSent, c.keyId) + 1],
       flights := c.flights[id := c.flights[id].(stage := Sent(under))])
  }

  lemma SendsTheFirst(c: Client, under: bytes, first: seq<nat>, again: seq<nat>, commands: map<nat, string>)
    requires HoldsCalls(c, under, first, again, commands) && first + again != []
    requires Last(c.lastSent, c.keyId) + 1 < COUNTER_LIMIT
    ensures var id := (first + again)[0];
            && id in c.flights && id in commands && c.outbox != []
            && c.outbox[1..] == Outs((first + again)[1..])
            && SendNext(c) == (SentFirst(c, under, id),
                               Some(CallFrame(c.keyId, Last(c.lastSent, c.keyId) + 1, under, id, commands[id])))
  {
    var ids := first + again;
    assert ids[0] in ids && c.outbox[0] == Call(ids[0]);
    assert ids[0] in first || ids[0] in again;
  }

  lemma {:induction false} TellsOne(tell: (Client, nat) -> Client, c: Client, told: Client, n: nat, id: nat)
    requires tell(c, id) == told
    requires forall other :: other != id ==> tell(c, other) == c && tell(told, other) == told
    ensures TellUpTo(tell, c, n) == if id < n then told else c
  {
    if n > 0 {
      TellsOne(tell, c, told, n - 1, id);
    }
  }

  lemma TellsOnlyIt(news: bytes, c: Client, id: nat, other: nat)
    requires other != id && (other in c.flights ==> c.flights[other].stage == Queued)
    ensures var told := Tell(c, id, news); Tell(c, other, news) == c && Tell(told, other, news) == told
  {
    var told := Tell(c, id, news);
    assert other in told.flights <==> other in c.flights;
    assert other in told.flights ==> told.flights[other] == c.flights[other];
  }

  /** Only a call that was sent hears of a challenge; the queued ones stay. */
  lemma TellsTheSent(news: bytes, c: Client, n: nat, id: nat)
    requires id in c.flights && forall other :: other in c.flights && other != id ==> c.flights[other].stage == Queued
    ensures TellUpTo(Telling(news), c, n) == if id < n then Tell(c, id, news) else c
  {
    var tell, told := Telling(news), Tell(c, id, news);
    forall other: nat | other != id
      ensures tell(c, other) == c && tell(told, other) == told
    {
      TellsOnlyIt(news, c, id, other);
    }
    TellsOne(tell, c, told, n, id);
  }

  /** What a refusal makes of the call that was sent: queued again, or given up when it was resent already. */
  lemma HearsRefusal(sent: Client, ctr: nat, id: nat, command: string, under: bytes, isResent: bool, next: bytes)
    requires id in sent.flights && sent.flights[id] == Flight(command, Sent(under), isResent)
    requires forall other :: other in sent.flights && other != id ==> sent.flights[other].stage == Queued
    requires id < sent.nextCallId && under != next && Last(sent.lastAccepted, sent.keyId) < ctr
    ensures var heard := Hear(sent, VectorHost.Pushed(ctr, VectorHost.Hello, Some(next)));
            var accepted := sent.(lastAccepted := sent.lastAccepted[sent.keyId := ctr], challenge := Some(next));
            heard == if isResent then accepted.(flights := sent.flights - {id},
                                                settled := sent.settled[id := ChallengeRefused])
                     else accepted.(flights := sent.flights[id := Flight(command, Queued, true)],
                                    outbox := sent.outbox + [Call(id)])
  {
    var accepted := sent.(lastAccepted := sent.lastAccepted[sent.keyId := ctr], challenge := Some(next));
    TellsTheSent(next, accepted, sent.nextCallId, id);
  }

  /** Whichever call is first: refused, its frame brings back a hello under the next challenge. */
  lemma FirstIsRefused(opener: VectorHost.Opener, seal: Sealer, h: VectorHost.Host, c: Client, under: bytes,
      first: seq<nat>, again: seq<nat>, commands: map<nat, string>)
    returns (next: bytes)
    requires SealsEach(opener, seal, c.keyId, commands) && HoldsCalls(c, under, first, again, commands)
    requires first + again != [] && InRange(h, c, 1) && CanAnswer(h, under) && VectorHost.Sends(h, under) > 1
    ensures var (after, heard) := Exchange(opener, seal, h, c);
            var id, ctr := (first + again)[0], Last(c.lastSent, c.keyId) + 1;
            && id in c.flights && c.outbox != []
            && VectorHost.IsCloser(h.(lastAccepted := ctr), under, after, next)
            && heard == Hear(SentFirst(c, under, id), VectorHost.Pushed(after.ctr, VectorHost.Hello, Some(next)))
  {
    SendsTheFirst(c, under, first, again, commands);
    var id, ctr := (first + again)[0], Last(c.lastSent, c.keyId) + 1;
    var client := ClientOf(seal, c.keyId, id, commands[id]);
    VectorHost.RefusedOnce(opener, h, client, under, ctr, id, commands[id]);
    var e := VectorHost.Receive(opener, h, Some(client(ctr, under)));
    next := VectorHost.NextChallenge(e.entries, under);
    VectorHost.ReceivePushesLast(opener, h, Some(client(ctr, under)));
    HearsTheLast(SendNext(c).0, e.entries);
  }

  /** Or it runs, and its frame brings back its answer. */
  lemma FirstIsServed(opener: VectorHost.Opener, seal: Sealer, h: VectorHost.Host, c: Client, under: bytes,
      first: seq<nat>, again: seq<nat>, commands: map<nat, string>)
    requires SealsEach(opener, seal, c.keyId, commands) && HoldsCalls(c, under, first, again, commands)
    requires first + again != [] && InRange(h, c, 1) && CanAnswer(h, under) && VectorHost.Sends(h, under) == 1
    ensures var (after, heard) := Exchange(opener, seal, h, c);
            var id, ctr := (first + again)[0], Last(c.lastSent, c.keyId) + 1;
            && id in c.flights && id in commands && c.outbox != []
            && after == h.(lastAccepted := ctr, ran := h.ran + [commands[id]], ctr := h.ctr + 1)
            && heard == Settle(SentFirst(c, under, id).(lastAccepted := c.lastAccepted[c.keyId := after.ctr]), id, Answered)
  {
    SendsTheFirst(c, under, first, again, commands);
    var id, ctr := (first + again)[0], Last(c.lastSent, c.keyId) + 1;
    var client := ClientOf(seal, c.keyId, id, commands[id]);
    VectorHost.AnswersNow(opener, h, client, under, ctr, id, commands[id]);
    var e := VectorHost.Receive(opener, h, Some(client(ctr, under)));
    VectorHost.ReceivePushesLast(opener, h, Some(client(ctr, under)));
    HearsTheLast(SendNext(c).0, e.entries);
  }

  // What is left in flight after each of the three.

  lemma RequeuedHeard(c: Client, under: bytes, first: seq<nat>, again: seq<nat>, commands: map<nat, string>,
      ctr: nat, next: bytes, heard: Client)
    requires HoldsCalls(c, under, first, again, commands) && first != []
    requires Last(c.lastAccepted, c.keyId) < ctr && under != next
    requires first[0] in c.flights && first[0] in commands && c.outbox != []
    requires heard == Hear(SentFirst(c, under, first[0]), VectorHost.Pushed(ctr, VectorHost.Hello, Some(next)))
    ensures heard == c.(challenge := Some(next), flights := c.flights[first[0] := Flight(commands[first[0]], Queued, true)],
                        outbox := c.outbox[1..] + [Call(first[0])],
                        lastSent := c.lastSent[c.keyId := Last(c.lastSent, c.keyId) + 1],
                        lastAccepted := c.lastAccepted[c.keyId := ctr])
  {
    var id := first[0];
    assert id in first && id in first + again;
    HearsRefusal(SentFirst(c, under, id), ctr, id, commands[id], under, false, next);
  }

  lemma RequeuedLeaves(c: Client, under: bytes, first: seq<nat>, again: seq<nat>, commands: map<nat, string>,
      ctr: nat, next: bytes, heard: Client)
    requires HoldsCalls(c, under, first, again, commands) && first != []
    requires Last(c.lastAccepted, c.keyId) < ctr && under != next
    requires first[0] in c.flights && c.outbox != []
    requires heard == Hear(SentFirst(c, under, first[0]), VectorHost.Pushed(ctr, VectorHost.Hello, Some(next)))
    requires c.outbox[1..] == Outs((first + again)[1..])
    ensures HoldsCalls(heard, next, first[1..], again + [first[0]], commands)
    ensures heard.settled == c.settled && heard.keyId == c.keyId
    ensures Last(heard.lastSent, c.keyId) == Last(c.lastSent, c.keyId) + 1 && Last(heard.lastAccepted, c.keyId) == ctr
  {
    assert first[0] in first + again;
    RequeuedHeard(c, under, first, again, commands, ctr, next, heard);
    RequeuedOrder(first, again);
    RequeuedHolds(c, under, first, again, commands, next, heard);
  }

  lemma RequeuedHolds(c: Client, under: bytes, first: seq<nat>, again: seq<nat>, commands: map<nat, string>,
      next: bytes, heard: Client)
    requires HoldsCalls(c, under, first, again, commands) && first != []
    requires heard.challenge == Some(next) && heard.nextCallId == c.nextCallId
    requires heard.outbox == Outs(first[1..] + (again + [first[0]]))
    requires first[0] in commands && heard.flights == c.flights[first[0] := Flight(commands[first[0]], Queued, true)]
    ensures HoldsCalls(heard, next, first[1..], again + [first[0]], commands)
  {
    RequeuedOrder(first, again);
    GoneLeaves(c, first, again);
    assert (first + again)[1..] == first[1..] + again;
    forall id | id in first[1..] || id in again
      ensures id != first[0] && id in first + again
    {
      assert id in first[1..] + again;
    }
  }

  lemma RequeuedOrder(first: seq<nat>, again: seq<nat>)
    requires first != [] && Distinct(first + again)
    ensures var left := first[1..] + (again + [first[0]]);
            && Distinct(left) && Outs((first + again)[1..]) + [Call(first[0])] == Outs(left)
            && forall id :: id in left <==> id in first + again
  {
    var ids, left := first + again, first[1..] + (again + [first[0]]);
    assert left == ids[1..] + [ids[0]];
    assert ids == [ids[0]] + ids[1..];
  }

  lemma GoneLeaves(c: Client, first: seq<nat>, again: seq<nat>)
    requires first + again != [] && Distinct(first + again)
    requires forall id :: id in c.flights <==> id in first + again
    ensures var ids := first + again;
            && Distinct(ids[1..]) && ids[0] !in ids[1..]
            && forall id :: id in c.flights - {ids[0]} <==> id in ids[1..]
  {
    var ids := first + again;
    assert ids == [ids[0]] + ids[1..];
  }

  /** A call that is over leaves the others as they were. */
  lemma EndedHolds(c: Client, under: bytes, first: seq<nat>, again: seq<nat>, commands: map<nat, string>,
      next: bytes, after: Client, first': seq<nat>, again': seq<nat>)
    requires HoldsCalls(c, under, first, again, commands) && first + again != []
    requires if first != [] then first' == first[1..] && again' == again else first' == [] && again' == again[1..]
    requires after.challenge == Some(next) && after.nextCallId == c.nextCallId
    requires after.outbox == Outs((first + again)[1..]) && after.flights == c.flights - {(first + again)[0]}
    ensures HoldsCalls(after, next, first', again', commands)
  {
    var ids := first + again;
    GoneLeaves(c, first, again);
    assert first' + again' == ids[1..];
    forall id | id in first' + again'
      ensures id in ids && id != ids[0] && (id in first' ==> id in first) && (id in again' ==> id in again)
    {
    }
  }

  /**
   The calls that run, in order, when so many refusals are to come: one refused for the
   first time goes to the back, one refused once more is given up.
   */
  function Served(first: seq<nat>, again: seq<nat>, refusals: nat): seq<nat>
    decreases refusals
  {
    if refusals == 0 then first + again
    else if first != [] then Served(first[1..], again + [first[0]], refusals - 1)
    else if again != [] then Served([], again[1..], refusals - 1)
    else []
  }

  lemma {:induction false} ServedAreThere(first: seq<nat>, again: seq<nat>, refusals: nat)
    ensures forall id :: id in Served(first, again, refusals) ==> id in first + again
    decreases refusals
  {
    if refusals > 0 {
      if first != [] {
        ServedAreThere(first[1..], again + [first[0]], refusals - 1);
      } else if again != [] {
        ServedAreThere([], again[1..], refusals - 1);
      }
    }
  }

  /** Every call over, as it was to end; those that ended before as they did. */
  ghost predicate AllEnd(c: Client, ids: set<nat>, served: seq<nat>, after: Client) {
    && after.outbox == [] && after.flights == map[]
    && (forall id :: id in ids ==>
          id in after.settled && after.settled[id] == if id in served then Answered else ChallengeRefused)
    && (forall id :: id !in ids ==> KeepsEnding(c, after, id))
  }

  /** What is to be said of the calls left, from a state in which they are queued. */
  ghost predicate CanDrain(h: VectorHost.Host, c: Client, under: bytes, first: seq<nat>, again: seq<nat>,
      commands: map<nat, string>)
  {
    HoldsCalls(c, under, first, again, commands) && InRange(h, c, 2 * |first| + |again|) && CanAnswer(h, under)
  }

  /** The refusals still to come. */
  function Refusals(h: VectorHost.Host, under: bytes): nat { VectorHost.Sends(h, under) - 1 }

  /** What one exchange did: the first call served, put back, or given up. */
  ghost predicate Advances(h: VectorHost.Host, c: Client, under: bytes, first: seq<nat>, again: seq<nat>,
      commands: map<nat, string>, after: VectorHost.Host, heard: Client, next: bytes)
    requires first + again != []
  {
    var id := (first + again)[0];
    && heard.keyId == c.keyId && id in commands
    && if Refusals(h, under) == 0 then
         && Refusals(after, next) == 0 && after.ran == h.ran + [commands[id]]
         && heard.settled == c.settled[id := Answered]
         && (if first != [] then CanDrain(after, heard, next, first[1..], again, commands)
             else CanDrain(after, heard, next, [], again[1..], commands))
       else
         && Refusals(after, next) == Refusals(h, under) - 1 && after.ran == h.ran
         && (if first != [] then
               heard.settled == c.settled && CanDrain(after, heard, next, first[1..], again + [id], commands)
             else
               && heard.settled == c.settled[id := ChallengeRefused]
               && CanDrain(after, heard, next, [], again[1..], commands))
  }

  lemma ServesTheFirst(opener: VectorHost.Opener, seal: Sealer, h: VectorHost.Host, c: Client, under: bytes,
      first: seq<nat>, again: seq<nat>, commands: map<nat, string>)
    requires SealsEach(opener, seal, c.keyId, commands) && CanDrain(h, c, under, first, again, commands)
    requires first + again != [] && Refusals(h, under) == 0
    ensures var (after, heard) := Exchange(opener, seal, h, c);
            Advances(h, c, under, first, again, commands, after, heard, under)
  {
    SendsTheFirst(c, under, first, again, commands);
    FirstIsServed(opener, seal, h, c, under, first, again, commands);
    EndedHolds(c, under, first, again, commands, under, Exchange(opener, seal, h, c).1,
      if first != [] then first[1..] else [], if first == [] then again[1..] else again);
  }

  lemma PutsTheFirstBack(opener: VectorHost.Opener, seal: Sealer, h: VectorHost.Host, c: Client, under: bytes,
      first: seq<nat>, again: seq<nat>, commands: map<nat, string>)
    returns (next: bytes)
    requires SealsEach(opener, seal, c.keyId, commands) && CanDrain(h, c, under, first, again, commands)
    requires first != [] && Refusals(h, under) > 0
    ensures var (after, heard) := Exchange(opener, seal, h, c);
            Advances(h, c, under, first, again, commands, after, heard, next)
  {
    SendsTheFirst(c, under, first, again, commands);
    next := FirstIsRefused(opener, seal, h, c, under, first, again, commands);
    var (after, heard) := Exchange(opener, seal, h, c);
    RequeuedLeaves(c, under, first, again, commands, after.ctr, next, heard);
  }

  lemma GivesTheFirstUp(opener: VectorHost.Opener, seal: Sealer, h: VectorHost.Host, c: Client, under: bytes,
      first: seq<nat>, again: seq<nat>, commands: map<nat, string>)
    returns (next: bytes)
    requires SealsEach(opener, seal, c.keyId, commands) && CanDrain(h, c, under, first, again, commands)
    requires first == [] && again != [] && Refusals(h, under) > 0
    ensures var (after, heard) := Exchange(opener, seal, h, c);
            Advances(h, c, under, first, again, commands, after, heard, next)
  {
    assert first + again == again;
    SendsTheFirst(c, under, first, again, commands);
    next := FirstIsRefused(opener, seal, h, c, under, first, again, commands);
    var (after, heard) := Exchange(opener, seal, h, c);
    GivenUpLeaves(c, under, first, again, commands, after.ctr, next, heard);
  }

  lemma GivenUpLeaves(c: Client, under: bytes, first: seq<nat>, again: seq<nat>, commands: map<nat, string>,
      ctr: nat, next: bytes, heard: Client)
    requires HoldsCalls(c, under, first, again, commands) && first == [] && again != []
    requires Last(c.lastAccepted, c.keyId) < ctr && under != next
    requires again[0] in c.flights && c.outbox != []
    requires heard == Hear(SentFirst(c, under, again[0]), VectorHost.Pushed(ctr, VectorHost.Hello, Some(next)))
    requires c.outbox[1..] == Outs((first + again)[1..])
    ensures HoldsCalls(heard, next, [], again[1..], commands)
    ensures heard.settled == c.settled[again[0] := ChallengeRefused] && heard.keyId == c.keyId
    ensures Last(heard.lastSent, c.keyId) == Last(c.lastSent, c.keyId) + 1 && Last(heard.lastAccepted, c.keyId) == ctr
  {
    var id := again[0];
    assert id in again && id in first + again && (first + again)[0] == id;
    HearsRefusal(SentFirst(c, under, id), ctr, id, commands[id], under, true, next);
    EndedHolds(c, under, first, again, commands, next, heard, [], again[1..]);
  }

  /** Some next challenge makes it one of the three. */
  ghost predicate AdvancesSomehow(h: VectorHost.Host, c: Client, under: bytes, first: seq<nat>, again: seq<nat>,
      commands: map<nat, string>, after: VectorHost.Host, heard: Client)
    requires first + again != []
  {
    exists next :: Advances(h, c, under, first, again, commands, after, heard, next)
  }

  lemma ExchangeAdvances(opener: VectorHost.Opener, seal: Sealer, h: VectorHost.Host, c: Client, under: bytes,
      first: seq<nat>, again: seq<nat>, commands: map<nat, string>)
    requires SealsEach(opener, seal, c.keyId, commands) && CanDrain(h, c, under, first, again, commands)
    requires first + again != []
    ensures var (after, heard) := Exchange(opener, seal, h, c);
            AdvancesSomehow(h, c, under, first, again, commands, after, heard)
  {
    if Refusals(h, under) == 0 {
      ServesTheFirst(opener, seal, h, c, under, first, again, commands);
    } else if first != [] {
      var next := PutsTheFirstBack(opener, seal, h, c, under, first, again, commands);
    } else {
      var next := GivesTheFirstUp(opener, seal, h, c, under, first, again, commands);
    }
  }

  /** A state of the two in which those calls are queued, with so many refusals to come. */
  type Readiness = (VectorHost.Host, Client, seq<nat>, seq<nat>, nat) -> bool

  ghost predicate IsReady(keyId: nat, commands: map<nat, string>, h: VectorHost.Host, c: Client,
      first: seq<nat>, again: seq<nat>, refusals: nat)
  {
    c.keyId == keyId && exists under :: CanDrain(h, c, under, first, again, commands) && Refusals(h, under) == refusals
  }

  ghost function Ready(keyId: nat, commands: map<nat, string>): Readiness {
    (h: VectorHost.Host, c: Client, first: seq<nat>, again: seq<nat>, refusals: nat) =>
      IsReady(keyId, commands, h, c, first, again, refusals)
  }

  /** What an exchange does to a state that is ready, whoever is first. */
  ghost predicate AdvancesTo(ready: Readiness, commands: map<nat, string>, h: VectorHost.Host, c: Client,
      first: seq<nat>, again: seq<nat>, refusals: nat, after: VectorHost.Host, heard: Client)
    requires first + again != []
  {
    var id := (first + again)[0];
    && id in commands
    && if refusals == 0 then
         && after.ran == h.ran + [commands[id]] && heard.settled == c.settled[id := Answered]
         && (if first != [] then ready(after, heard, first[1..], again, 0) else ready(after, heard, [], again[1..], 0))
       else
         && after.ran == h.ran
         && (if first != [] then
               heard.settled == c.settled && ready(after, heard, first[1..], again + [id], refusals - 1)
             else
               heard.settled == c.settled[id := ChallengeRefused] && ready(after, heard, [], again[1..], refusals - 1))
  }

  /** An exchange does so from a state that is ready, and nothing when nothing is left. */
  ghost predicate Advancing(exchange: Exchanger, ready: Readiness, commands: map<nat, string>, h: VectorHost.Host,
      c: Client, first: seq<nat>, again: seq<nat>, refusals: nat)
  {
    ready(h, c, first, again, refusals) ==>
      && Distinct(first + again)
      && if first + again == [] then c.flights == map[] && c.outbox == [] && exchange(h, c) == (h, c)
         else AdvancesTo(ready, commands, h, c, first, again, refusals, exchange(h, c).0, exchange(h, c).1)
  }

  ghost predicate AlwaysAdvances(exchange: Exchanger, ready: Readiness, commands: map<nat, string>) {
    forall h, c, first, again, refusals :: Advancing(exchange, ready, commands, h, c, first, again, refusals)
  }

  lemma ReadyAdvances(opener: VectorHost.Opener, seal: Sealer, keyId: nat, commands: map<nat, string>,
      h: VectorHost.Host, c: Client, first: seq<nat>, again: seq<nat>, refusals: nat)
    requires SealsEach(opener, seal, keyId, commands) && IsReady(keyId, commands, h, c, first, again, refusals)
    requires first + again != []
    ensures var (after, heard) := Exchange(opener, seal, h, c);
            AdvancesTo(Ready(keyId, commands), commands, h, c, first, again, refusals, after, heard)
  {
    var under :| CanDrain(h, c, under, first, again, commands) && Refusals(h, under) == refusals;
    ExchangeAdvances(opener, seal, h, c, under, first, again, commands);
    var (after, heard) := Exchange(opener, seal, h, c);
    var next :| Advances(h, c, under, first, again, commands, after, heard, next);
    AdvancesReady(keyId, commands, h, c, under, first, again, after, heard, next);
  }

  lemma AdvancesReady(keyId: nat, commands: map<nat, string>, h: VectorHost.Host, c: Client, under: bytes,
      first: seq<nat>, again: seq<nat>, after: VectorHost.Host, heard: Client, next: bytes)
    requires first + again != [] && c.keyId == keyId
    requires Advances(h, c, under, first, again, commands, after, heard, next)
    ensures AdvancesTo(Ready(keyId, commands), commands, h, c, first, again, Refusals(h, under), after, heard)
  {
  }

  lemma ExchangingAdvances(opener: VectorHost.Opener, seal: Sealer, keyId: nat, commands: map<nat, string>)
    requires SealsEach(opener, seal, keyId, commands)
    ensures AlwaysAdvances(Exchanging(opener, seal), Ready(keyId, commands), commands)
  {
    var exchange, ready := Exchanging(opener, seal), Ready(keyId, commands);
    forall h: VectorHost.Host, c: Client, first, again, refusals
      ensures Advancing(exchange, ready, commands, h, c, first, again, refusals)
    {
      if ready(h, c, first, again, refusals) {
        if first + again != [] {
          ReadyAdvances(opener, seal, keyId, commands, h, c, first, again, refusals);
        } else {
          NoneLeft(keyId, commands, h, c, first, again, refusals);
        }
      }
    }
  }

  lemma NoneLeft(keyId: nat, commands: map<nat, string>, h: VectorHost.Host, c: Client,
      first: seq<nat>, again: seq<nat>, refusals: nat)
    requires IsReady(keyId, commands, h, c, first, again, refusals) && first + again == []
    ensures c.flights == map[] && c.outbox == []
  {
  }

  lemma {:induction false} NothingToSend(exchange: Exchanger, h: VectorHost.Host, c: Client, n: nat)
    requires exchange(h, c) == (h, c)
    ensures Exchanges(exchange, h, c, n) == (h, c)
    decreases n
  {
    if n > 0 {
      NothingToSend(exchange, h, c, n - 1);
    }
  }

  /** What is left to say after so many exchanges. */
  ghost predicate Drained(h: VectorHost.Host, c: Client, ids: set<nat>, served: seq<nat>, commands: map<nat, string>,
      after: VectorHost.Host, heard: Client)
  {
    && (forall id :: id in served ==> id in commands)
    && after.ran == h.ran + CommandsOf(served, commands)
    && AllEnd(c, ids, served, heard)
  }

  /** How the rest ends and how the first did is how all end. */
  lemma FirstEnds(h: VectorHost.Host, c: Client, id: nat, ids: set<nat>, after: VectorHost.Host, heard: Client,
      served: seq<nat>, left: seq<nat>, commands: map<nat, string>, end: (VectorHost.Host, Client), s: Settlement)
    requires id in ids && id in commands && id !in left
    requires Drained(after, heard, ids - {id}, left, commands, end.0, end.1)
    requires heard.settled == c.settled[id := s]
    requires
      || (s == Answered && served == [id] + left && after.ran == h.ran + [commands[id]])
      || (s == ChallengeRefused && served == left && after.ran == h.ran)
    ensures Drained(h, c, ids, served, commands, end.0, end.1)
  {
    assert KeepsEnding(heard, end.1, id);
    forall other: nat | other !in ids
      ensures KeepsEnding(c, end.1, other)
    {
      assert KeepsEnding(heard, end.1, other);
    }
    if s == Answered {
      assert CommandsOf(served, commands) == [commands[id]] + CommandsOf(left, commands);
    }
  }

  lemma PutBackEnds(h: VectorHost.Host, c: Client, ids: set<nat>, after: VectorHost.Host, heard: Client,
      served: seq<nat>, commands: map<nat, string>, end: (VectorHost.Host, Client))
    requires Drained(after, heard, ids, served, commands, end.0, end.1)
    requires heard.settled == c.settled && after.ran == h.ran
    ensures Drained(h, c, ids, served, commands, end.0, end.1)
  {
    forall id: nat | id !in ids
      ensures KeepsEnding(c, end.1, id)
    {
      assert KeepsEnding(heard, end.1, id);
    }
  }

  lemma NoneEnds(h: VectorHost.Host, c: Client, commands: map<nat, string>)
    requires c.flights == map[] && c.outbox == []
    ensures Drained(h, c, {}, [], commands, h, c)
  {
  }

  function IdsOf(first: seq<nat>, again: seq<nat>): set<nat> {
    (set id | id in first) + (set id | id in again)
  }

  lemma PutBackIds(first: seq<nat>, again: seq<nat>)
    requires first != []
    ensures IdsOf(first[1..], again + [first[0]]) == IdsOf(first, again)
  {
    assert first == [first[0]] + first[1..];
  }

  lemma HeadIsNotBehind(ids: seq<nat>)
    requires ids != [] && Distinct(ids)
    ensures ids[0] !in ids[1..]
  {
  }

  lemma RestIds(first: seq<nat>, again: seq<nat>, first': seq<nat>, again': seq<nat>)
    requires first + again != [] && Distinct(first + again)
    requires if first != [] then first' == first[1..] && again' == again else first' == [] && again' == again[1..]
    ensures var id := (first + again)[0];
            && id in IdsOf(first, again) && id !in first' + again'
            && IdsOf(first', again') == IdsOf(first, again) - {id}
  {
    var ids := first + again;
    assert ids == [ids[0]] + ids[1..] && first' + again' == ids[1..];
    if first != [] {
      assert first == [first[0]] + first[1..];
      HeadIsNotBehind(ids);
      assert forall id :: id in again ==> id in ids[1..];
    } else {
      assert again == [again[0]] + again[1..];
    }
  }

  /** The calls of an outbox, exchanged until it is empty. */
  lemma {:induction false} CallsEnd(exchange: Exchanger, ready: Readiness, h: VectorHost.Host, c: Client,
      first: seq<nat>, again: seq<nat>, refusals: nat, commands: map<nat, string>, n: nat)
    requires AlwaysAdvances(exchange, ready, commands) && ready(h, c, first, again, refusals)
    requires n >= 2 * |first| + |again|
    ensures var (after, heard) := Exchanges(exchange, h, c, n);
            Drained(h, c, IdsOf(first, again), Served(first, again, refusals), commands, after, heard)
    decreases 2 * |first| + |again|, 1
  {
    assert Advancing(exchange, ready, commands, h, c, first, again, refusals);
    if first + again == [] {
      NothingToSend(exchange, h, c, n);
      NoneEnds(h, c, commands);
      assert IdsOf(first, again) == {};
    } else if refusals > 0 && first != [] {
      EndAfterPutBack(exchange, ready, h, c, first, again, refusals, commands, n);
    } else {
      EndAfterFirst(exchange, ready, h, c, first, again, refusals, commands, n,
        if first != [] then first[1..] else [], if first == [] then again[1..] else again);
    }
  }

  lemma {:induction false} EndAfterPutBack(exchange: Exchanger, ready: Readiness, h: VectorHost.Host, c: Client,
      first: seq<nat>, again: seq<nat>, refusals: nat, commands: map<nat, string>, n: nat)
    requires AlwaysAdvances(exchange, ready, commands) && ready(h, c, first, again, refusals)
    requires n >= 2 * |first| + |again| && first != [] && refusals > 0
    ensures var (after, heard) := Exchanges(exchange, h, c, n);
            Drained(h, c, IdsOf(first, again), Served(first, again, refusals), commands, after, heard)
    decreases 2 * |first| + |again|, 0
  {
    assert Advancing(exchange, ready, commands, h, c, first, again, refusals);
    var (after, heard) := exchange(h, c);
    var rest, back, fewer := first[1..], again + [first[0]], refusals - 1;
    var ids, served, end := IdsOf(rest, back), Served(rest, back, fewer), Exchanges(exchange, after, heard, n - 1);
    CallsEnd(exchange, ready, after, heard, rest, back, fewer, commands, n - 1);
    PutBackIds(first, again);
    PutBackEnds(h, c, ids, after, heard, served, commands, end);
  }

  lemma {:induction false} EndAfterFirst(exchange: Exchanger, ready: Readiness, h: VectorHost.Host, c: Client,
      first: seq<nat>, again: seq<nat>, refusals: nat, commands: map<nat, string>, n: nat,
      first': seq<nat>, again': seq<nat>)
    requires AlwaysAdvances(exchange, ready, commands) && ready(h, c, first, again, refusals)
    requires n >= 2 * |first| + |again| && first + again != [] && (refusals == 0 || first == [])
    requires if first != [] then first' == first[1..] && again' == again else first' == [] && again' == again[1..]
    ensures var (after, heard) := Exchanges(exchange, h, c, n);
            Drained(h, c, IdsOf(first, again), Served(first, again, refusals), commands, after, heard)
    decreases 2 * |first| + |again|, 0
  {
    assert Advancing(exchange, ready, commands, h, c, first, again, refusals);
    var (after, heard) := exchange(h, c);
    var to := if refusals > 0 then refusals - 1 else 0;
    var left, end := Served(first', again', to), Exchanges(exchange, after, heard, n - 1);
    CallsEnd(exchange, ready, after, heard, first', again', to, commands, n - 1);
    ServedAreThere(first', again', to);
    RestIds(first, again, first', again');
    ServedNext(first, again, refusals, first', again');
    FirstEnds(h, c, (first + again)[0], IdsOf(first, again), after, heard, Served(first, again, refusals), left, commands,
      end, if refusals == 0 then Answered else ChallengeRefused);
  }

  lemma ServedNext(first: seq<nat>, again: seq<nat>, refusals: nat, first': seq<nat>, again': seq<nat>)
    requires first + again != [] && (refusals == 0 || first == [])
    requires if first != [] then first' == first[1..] && again' == again else first' == [] && again' == again[1..]
    ensures refusals == 0 ==> Served(first, again, 0) == [(first + again)[0]] + Served(first', again', 0)
    ensures refusals > 0 ==> Served(first, again, refusals) == Served(first', again', refusals - 1)
  {
    var ids := first + again;
    assert ids == [ids[0]] + ids[1..] && first' + again' == ids[1..];
  }

  /** The same, by place: the calls after those refused once, then those of the back not given up. */
  function ServedByPlace(first: seq<nat>, again: seq<nat>, refusals: nat): seq<nat> {
    var once := if refusals <= |first| then refusals else |first|;
    var back, more := again + first[..once], refusals - once;
    first[once..] + (if more <= |back| then back[more..] else [])
  }

  lemma PlacesOnce(first: seq<nat>, again: seq<nat>, refusals: nat)
    requires first != [] && refusals > 0
    ensures ServedByPlace(first, again, refusals) == ServedByPlace(first[1..], again + [first[0]], refusals - 1)
  {
    var once := if refusals <= |first| then refusals else |first|;
    var rest := first[1..];
    assert first[..once] == [first[0]] + rest[..once - 1];
    Associates(again, [first[0]], rest[..once - 1]);
    assert first[once..] == rest[once - 1..];
  }

  lemma PlacesTwice(again: seq<nat>, refusals: nat)
    requires again != [] && refusals > 0
    ensures ServedByPlace([], again, refusals) == ServedByPlace([], again[1..], refusals - 1)
  {
    var none: seq<nat> := [];
    assert again + none[..0] == again && again[1..] + none[..0] == again[1..];
  }

  lemma {:induction false} ServedAsPlaced(first: seq<nat>, again: seq<nat>, refusals: nat)
    ensures Served(first, again, refusals) == ServedByPlace(first, again, refusals)
    decreases refusals
  {
    if refusals == 0 {
      assert again + first[..0] == again;
    } else if first != [] {
      PlacesOnce(first, again, refusals);
      ServedAsPlaced(first[1..], again + [first[0]], refusals - 1);
    } else if again != [] {
      PlacesTwice(again, refusals);
      ServedAsPlaced([], again[1..], refusals - 1);
    }
  }

  lemma FewRefusals(ids: seq<nat>, refusals: nat)
    requires refusals <= |ids|
    ensures ServedByPlace(ids, [], refusals) == ids[refusals..] + ids[..refusals]
  {
    var none: seq<nat> := [];
    assert none + ids[..refusals] == ids[..refusals];
  }

  lemma ManyRefusals(ids: seq<nat>, refusals: nat)
    requires |ids| <= refusals
    ensures ServedByPlace(ids, [], refusals) == if refusals <= 2 * |ids| then ids[refusals - |ids|..] else []
  {
    var none: seq<nat> := [];
    assert none + ids[..|ids|] == ids && ids[|ids|..] == [];
  }

  lemma InRotated(ids: seq<nat>, n: nat, k: nat)
    requires n <= |ids| && k < |ids|
    ensures ids[k] in ids[n..] + ids[..n]
  {
    assert if k < n then ids[..n][k] == ids[k] else ids[n..][k - n] == ids[k];
  }

  lemma InTail(ids: seq<nat>, n: nat, k: nat)
    requires Distinct(ids) && n <= |ids| && k < |ids|
    ensures ids[k] in ids[n..] <==> n <= k
  {
    if n <= k {
      assert ids[n..][k - n] == ids[k];
    }
  }

  /** Of n calls the one at place k, from 0, is served exactly when at most n + k refusals come. */
  lemma ServedExactly(ids: seq<nat>, refusals: nat, k: nat)
    requires Distinct(ids) && k < |ids|
    ensures ids[k] in Served(ids, [], refusals) <==> refusals <= |ids| + k
  {
    ServedAsPlaced(ids, [], refusals);
    if refusals <= |ids| {
      FewRefusals(ids, refusals);
      InRotated(ids, refusals, k);
    } else {
      ManyRefusals(ids, refusals);
      if refusals <= 2 * |ids| {
        InTail(ids, refusals - |ids|, k);
      }
    }
  }

  /** The calls in flight, in the order of their ids. */
  function InFlight(flights: map<nat, Flight>, n: nat): seq<nat> {
    if n == 0 then [] else InFlight(flights, n - 1) + (if n - 1 in flights then [n - 1] else [])
  }

  lemma {:induction false} InFlightAre(flights: map<nat, Flight>, n: nat)
    ensures Distinct(InFlight(flights, n))
    ensures forall id :: id in InFlight(flights, n) <==> id in flights && id < n
  {
    if n > 0 {
      InFlightAre(flights, n - 1);
    }
  }

  /** The flights whose ids are below n, queued. */
  function QueuedUpTo(flights: map<nat, Flight>, n: nat): map<nat, Flight> {
    map id | id in flights :: if id < n then flights[id].(stage := Queued) else flights[id]
  }

  lemma {:induction false} TellsTheWaiting(news: bytes, c: Client, n: nat)
    requires forall id :: id in c.flights ==> c.flights[id].stage == AwaitingChallenge
    ensures TellUpTo(Telling(news), c, n)
            == c.(flights := QueuedUpTo(c.flights, n), outbox := c.outbox + Outs(InFlight(c.flights, n)))
  {
    if n == 0 {
      assert QueuedUpTo(c.flights, 0) == c.flights;
      assert c.outbox + Outs([]) == c.outbox;
    } else {
      TellsTheWaiting(news, c, n - 1);
      var before := TellUpTo(Telling(news), c, n - 1);
      var ids, id := InFlight(c.flights, n - 1), n - 1;
      if id in c.flights {
        assert before.flights[id] == c.flights[id];
        assert QueuedUpTo(c.flights, n) == before.flights[id := c.flights[id].(stage := Queued)];
        assert Outs(ids + [id]) == Outs(ids) + [Call(id)];
        Associates(c.outbox, Outs(ids), [Call(id)]);
      } else {
        assert QueuedUpTo(c.flights, n) == before.flights;
        assert ids + [] == ids;
      }
    }
  }

  function CommandsIn(flights: map<nat, Flight>): map<nat, string> {
    map id | id in flights :: flights[id].command
  }

  /** Calls made before any challenge was heard. */
  ghost predicate AllWait(c: Client) {
    c.outbox == [] && forall id :: id in c.flights ==>
      id < c.nextCallId && c.flights[id].stage == AwaitingChallenge && !c.flights[id].isResent
  }

  lemma ToldInOrder(c: Client, news: bytes)
    requires AllWait(c)
    ensures var told, ids := HearChallenge(c, news), InFlight(c.flights, c.nextCallId);
            && Distinct(ids) && HoldsCalls(told, news, ids, [], CommandsIn(c.flights))
            && told == c.(challenge := Some(news), flights := told.flights, outbox := told.outbox)
  {
    var ids := InFlight(c.flights, c.nextCallId);
    TellsTheWaiting(news, c.(challenge := Some(news)), c.nextCallId);
    InFlightAre(c.flights, c.nextCallId);
    assert ids + [] == ids;
    assert c.outbox + Outs(ids) == Outs(ids);
  }

  /**
   How calls end, in the order of their ids: the one at place k of n, from 0, ran and was
   answered exactly when at most n + k refusals came, and was otherwise given up without
   having run. Nothing else ran; those refused once ran after those never refused.
   */
  ghost predicate EndByPlace(h: VectorHost.Host, ids: seq<nat>, refusals: nat, commands: map<nat, string>,
      after: VectorHost.Host, heard: Client)
  {
    var served := ServedByPlace(ids, [], refusals);
    && heard.flights == map[] && heard.outbox == []
    && (forall id :: id in served ==> id in commands) && after.ran == h.ran + CommandsOf(served, commands)
    && forall k :: 0 <= k < |ids| ==>
         && ids[k] in heard.settled
         && heard.settled[ids[k]] == if refusals <= |ids| + k then Answered else ChallengeRefused
  }

  lemma DrainedByPlace(h: VectorHost.Host, c: Client, ids: seq<nat>, refusals: nat, commands: map<nat, string>,
      after: VectorHost.Host, heard: Client)
    requires Distinct(ids) && Drained(h, c, IdsOf(ids, []), Served(ids, [], refusals), commands, after, heard)
    ensures EndByPlace(h, ids, refusals, commands, after, heard)
  {
    ServedAsPlaced(ids, [], refusals);
    forall k | 0 <= k < |ids|
      ensures ids[k] in IdsOf(ids, []) && (ids[k] in Served(ids, [], refusals) <==> refusals <= |ids| + k)
    {
      ServedExactly(ids, refusals, k);
    }
  }

  lemma QueuedCallsEnd(opener: VectorHost.Opener, seal: Sealer, h: VectorHost.Host, c: Client, under: bytes,
      ids: seq<nat>, commands: map<nat, string>, n: nat)
    requires SealsEach(opener, seal, c.keyId, commands) && n == 2 * |ids| && Distinct(ids)
    requires HoldsCalls(c, under, ids, [], commands) && InRange(h, c, n) && CanAnswer(h, under)
    ensures var (after, heard) := Exchanges(Exchanging(opener, seal), h, c, n);
            EndByPlace(h, ids, Refusals(h, under), commands, after, heard)
  {
    var exchange, ready, refusals := Exchanging(opener, seal), Ready(c.keyId, commands), Refusals(h, under);
    ExchangingAdvances(opener, seal, c.keyId, commands);
    assert CanDrain(h, c, under, ids, [], commands);
    assert ready(h, c, ids, [], refusals);
    CallsEnd(exchange, ready, h, c, ids, [], refusals, commands, n);
    var (after, heard) := Exchanges(exchange, h, c, n);
    DrainedByPlace(h, c, ids, refusals, commands, after, heard);
  }

  /**
   Calls told of the host's challenge by one hello end by place, in the order of their
   ids: each restart that is pending refuses one frame.
   */
  lemma CallsToldByOneHello(opener: VectorHost.Opener, seal: Sealer, h: VectorHost.Host, c: Client, under: bytes)
    requires AllWait(c) && SealsEach(opener, seal, c.keyId, CommandsIn(c.flights))
    requires h.held == Some(under) && CanAnswer(h, under)
    requires InRange(h, c, 2 * |InFlight(c.flights, c.nextCallId)|)
    ensures var ids, commands := InFlight(c.flights, c.nextCallId), CommandsIn(c.flights);
            var (after, heard) := Exchanges(Exchanging(opener, seal), h, HearChallenge(c, under), 2 * |ids|);
            EndByPlace(h, ids, if h.restarts > 0 then h.restarts else 0, commands, after, heard)
  {
    var ids, told, commands := InFlight(c.flights, c.nextCallId), HearChallenge(c, under), CommandsIn(c.flights);
    ToldInOrder(c, under);
    assert InRange(h, told, 2 * |ids|);
    QueuedCallsEnd(opener, seal, h, told, under, ids, commands, 2 * |ids|);
  }

  lemma OneServed(id: nat, refusals: nat)
    ensures ServedByPlace([id], [], refusals) == if refusals <= 1 then [id] else []
  {
    if refusals <= 1 {
      assert [id][refusals..] + [id][..refusals] == [id];
    }
  }

  lemma OneIsHeld(c: Client, id: nat, command: string, under: bytes)
    requires c.challenge == Some(under) && c.outbox == [Call(id)] && id < c.nextCallId
    requires c.flights == map[id := Flight(command, Queued, false)]
    ensures HoldsCalls(c, under, [id], [], map[id := command])
  {
    assert [id] + [] == [id] && Outs([id]) == [Call(id)];
  }

  lemma OneEnds(h: VectorHost.Host, id: nat, command: string, refusals: nat, after: VectorHost.Host, heard: Client)
    requires EndByPlace(h, [id], refusals, map[id := command], after, heard)
    ensures after.ran == (if refusals <= 1 then h.ran + [command] else h.ran)
    ensures heard.flights == map[] && heard.outbox == [] && id in heard.settled
    ensures heard.settled[id] == if refusals <= 1 then Answered else ChallengeRefused
  {
    var commands := map[id := command];
    OneServed(id, refusals);
    assert [id][0] == id;
    assert CommandsOf([id], commands) == [command] && CommandsOf([], commands) == [];
  }

  /**
   An undisturbed call under a challenge heard at any time is over after two exchanges:
   it ran and was answered exactly when at most one restart of the host was pending, and
   was otherwise given up as refused, without having run.
   */
  lemma UndisturbedCall(opener: VectorHost.Opener, seal: Sealer, h: VectorHost.Host, c: Client, id: nat,
      command: string, under: bytes)
    requires VectorHost.SealsCall(opener, ClientOf(seal, c.keyId, id, command), id, command)
    requires c.challenge == Some(under) && c.outbox == [Call(id)] && id < c.nextCallId
    requires c.flights == map[id := Flight(command, Queued, false)]
    requires InRange(h, c, 2) && CanAnswer(h, under)
    ensures var (after, heard) := Exchanges(Exchanging(opener, seal), h, c, 2);
            && after.ran == (if h.restarts <= 1 then h.ran + [command] else h.ran)
            && heard.flights == map[] && heard.outbox == [] && id in heard.settled
            && heard.settled[id] == if h.restarts <= 1 then Answered else ChallengeRefused
  {
    var ids, commands := [id], map[id := command];
    OneIsHeld(c, id, command, under);
    QueuedCallsEnd(opener, seal, h, c, under, ids, commands, 2);
    var (after, heard) := Exchanges(Exchanging(opener, seal), h, c, 2);
    OneEnds(h, id, command, Refusals(h, under), after, heard);
  }
}
