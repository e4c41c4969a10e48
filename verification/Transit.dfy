/**
 The phone and the host with frames on the way between them: either end goes on
 before the other has replied, in any order of sends, arrivals and hearings. What
 becomes of calls told by one hello, over every such schedule.
 */
module Transit {
  import opened Common
  import opened RelayCrypto
  import opened RelayConnection
  import VectorHost

  type Push = VectorHost.Entry

  /** Both ends, and what is on the way: frames to the host, and its pushes to the phone, each in order. */
  datatype Session = Session(host: VectorHost.Host, phone: Client, up: seq<Frame>, down: seq<Push>)

  /** The next of the outbox leaves, a frame arrives at the host, or a push reaches the phone. */
  datatype Move = Leaves | Arrives | Reaches

  /** The first frame arrived, and what the host pushed is on its way. */
  function Replied(s: Session, e: VectorHost.Effect): Session
    requires s.up != []
  {
    s.(host := e.host, up := s.up[1..], down := s.down + VectorHost.Pushes(e.entries))
  }

  function Moved(opener: VectorHost.Opener, seal: Sealer, s: Session, m: Move): Session {
    match m
    case Leaves =>
      var (sent, frame) := SendNext(s.phone);
      s.(phone := sent, up := if frame.Some? then s.up + [frame.value] else s.up)
    case Arrives =>
      if s.up == [] then s else Replied(s, VectorHost.Receive(opener, s.host, Some(seal(s.up[0]))))
    case Reaches =>
      if s.down == [] then s else s.(phone := Hear(s.phone, s.down[0]), down := s.down[1..])
  }

  type Mover = (Session, Move) -> Session

  function Moving(opener: VectorHost.Opener, seal: Sealer): Mover {
    (s: Session, m: Move) => Moved(opener, seal, s, m)
  }

  /**
   A move is a step of one end: the next of the outbox leaves to the host, the first frame
   arrives there and what is pushed for it goes back in order, or the first push is heard.
   */
  lemma MovesAreSteps(opener: VectorHost.Opener, seal: Sealer, s: Session)
    ensures var (phone, frames) := Step(s.phone, Sends(true));
            Moved(opener, seal, s, Leaves) == s.(phone := phone, up := s.up + frames)
    ensures s.up == [] ==> Moved(opener, seal, s, Arrives) == s
    ensures s.up != [] ==>
              var e := VectorHost.Step(opener, s.host, VectorHost.Send(Some(seal(s.up[0]))));
              Moved(opener, seal, s, Arrives)
              == Session(e.host, s.phone, s.up[1..], s.down + Only(e.entries, (entry: Push) => entry.Pushed?))
    ensures Moved(opener, seal, s, Reaches)
         == if s.down == [] then s else Session(s.host, Hear(s.phone, s.down[0]), s.up, s.down[1..])
  {
    assert s.up + [] == s.up;
    if s.up != [] {
      VectorHost.PushesAre(VectorHost.Receive(opener, s.host, Some(seal(s.up[0]))).entries);
    }
  }

  /** A push above the last accepted counter is heard: a hello as its challenge, an answer as the end of its call. */
  lemma HearsAsSteps(c: Client, ctr: nat, plaintext: VectorHost.Plaintext, shown: Option<bytes>)
    ensures var last := if c.keyId in c.lastAccepted then c.lastAccepted[c.keyId] else 0;
            var accepted := c.(lastAccepted := c.lastAccepted[c.keyId := ctr]);
            Hear(c, VectorHost.Pushed(ctr, plaintext, shown))
            == if ctr <= last then c
               else if plaintext.Hello? && shown.Some? then Step(accepted, Hears(shown.value)).0
               else if plaintext.Answer? && plaintext.id >= 0 then Step(accepted, Answers(plaintext.id)).0
               else accepted
  {
  }

  /** A schedule, move after move. */
  function After<M>(move: (Session, M) -> Session, s: Session, moves: seq<M>): Session
    decreases |moves|
  {
    if moves == [] then s else After(move, move(s, moves[0]), moves[1..])
  }

  /** Nothing to send, and nothing on the way. */
  predicate AtRest(s: Session) { s.phone.outbox == [] && s.up == [] && s.down == [] }

  lemma {:induction false} AfterBoth<M>(move: (Session, M) -> Session, s: Session, a: seq<M>, b: seq<M>)
    ensures After(move, s, a + b) == After(move, After(move, s, a), b)
    decreases |a|
  {
    if a == [] {
      assert a + b == b;
    } else {
      AfterBoth(move, move(s, a[0]), a[1..], b);
      assert (a + b)[1..] == a[1..] + b;
    }
  }

  /** What every move keeps. */
  ghost predicate IsKept<M(!new)>(move: (Session, M) -> Session, holds: Session -> bool) {
    forall s, m :: holds(s) ==> holds(move(s, m))
  }

  lemma {:induction false} KeptAfter<M(!new)>(move: (Session, M) -> Session, holds: Session -> bool, s: Session,
      moves: seq<M>)
    requires IsKept(move, holds) && holds(s)
    ensures holds(After(move, s, moves))
    decreases |moves|
  {
    if moves != [] {
      KeptAfter(move, holds, move(s, moves[0]), moves[1..]);
    }
  }

  // ------------------------------------------------------------- every schedule ends

  /** What a call can still bring into the outbox, three for each time. */
  function Weight(flights: map<nat, Flight>, id: nat): nat {
    if id !in flights then 0
    else (if flights[id].isResent then 0 else 3) + (if flights[id].stage == AwaitingChallenge then 3 else 0)
  }

  function Weights(flights: map<nat, Flight>, n: nat): nat {
    if n == 0 then 0 else Weights(flights, n - 1) + Weight(flights, n - 1)
  }

  /** The moves still to come, at most. */
  function PhoneLoad(c: Client): nat { 3 * |c.outbox| + Weights(c.flights, c.nextCallId) }

  function Load(s: Session): nat { PhoneLoad(s.phone) + 2 * |s.up| + |s.down| }

  /** A move with something to do. */
  predicate IsEffective(s: Session, m: Move) {
    match m
    case Leaves => s.phone.outbox != []
    case Arrives => s.up != []
    case Reaches => s.down != []
  }

  lemma {:induction false} WeightsDiffer(f: map<nat, Flight>, g: map<nat, Flight>, id: nat, n: nat)
    requires forall k: nat :: k != id ==> Weight(f, k) == Weight(g, k)
    ensures Weights(g, n) == Weights(f, n) + (if id < n then Weight(g, id) - Weight(f, id) else 0)
  {
    if n > 0 {
      WeightsDiffer(f, g, id, n - 1);
    }
  }

  lemma {:induction false} NoWeights(flights: map<nat, Flight>, n: nat)
    requires forall id: nat :: Weight(flights, id) == 0
    ensures Weights(flights, n) == 0
  {
    if n > 0 {
      NoWeights(flights, n - 1);
    }
  }

  lemma SettleLightens(c: Client, id: nat, s: Settlement)
    ensures PhoneLoad(Settle(c, id, s)) <= PhoneLoad(c)
  {
    WeightsDiffer(c.flights, Settle(c, id, s).flights, id, c.nextCallId);
  }

  lemma QueueWeighs(c: Client, id: nat)
    requires id in c.flights && id < c.nextCallId
    ensures PhoneLoad(Queue(c, id)) == PhoneLoad(c) + (if c.flights[id].stage == AwaitingChallenge then 0 else 3)
  {
    WeightsDiffer(c.flights, Queue(c, id).flights, id, c.nextCallId);
  }

  lemma ResendingLightens(c: Client, id: nat)
    requires id in c.flights && id < c.nextCallId && !c.flights[id].isResent
    ensures PhoneLoad(c.(flights := c.flights[id := c.flights[id].(isResent := true)])) == PhoneLoad(c) - 3
  {
    WeightsDiffer(c.flights, c.flights[id := c.flights[id].(isResent := true)], id, c.nextCallId);
  }

  /** What a challenge does to a call costs the weight that it takes away. */
  lemma TellLightens(c: Client, id: nat, news: bytes)
    requires id < c.nextCallId
    ensures PhoneLoad(Tell(c, id, news)) <= PhoneLoad(c)
    ensures Tell(c, id, news).nextCallId == c.nextCallId
  {
    if id in c.flights {
      var flight := c.flights[id];
      match flight.stage {
        case AwaitingChallenge => QueueWeighs(c, id);
        case Queued =>
        case Sent(under) =>
          if flight.isResent {
            SettleLightens(c, id, ChallengeRefused);
          } else {
            ResendingLightens(c, id);
            QueueWeighs(c.(flights := c.flights[id := flight.(isResent := true)]), id);
          }
      }
    }
  }

  lemma {:induction false} TellingLightens(news: bytes, c: Client, n: nat)
    requires n <= c.nextCallId
    ensures PhoneLoad(TellUpTo(Telling(news), c, n)) <= PhoneLoad(c)
    ensures TellUpTo(Telling(news), c, n).nextCallId == c.nextCallId
  {
    if n > 0 {
      TellingLightens(news, c, n - 1);
      TellLightens(TellUpTo(Telling(news), c, n - 1), n - 1, news);
    }
  }

  lemma HearLightens(c: Client, e: Push)
    ensures PhoneLoad(Hear(c, e)) <= PhoneLoad(c)
  {
    if e.Pushed? && e.ctr > Last(c.lastAccepted, c.keyId) {
      var accepted := c.(lastAccepted := c.lastAccepted[c.keyId := e.ctr]);
      match e.plaintext {
        case Hello =>
          if e.shown.Some? {
            TellingLightens(e.shown.value, accepted.(challenge := e.shown), c.nextCallId);
          }
        case Answer(id, _) =>
          if id >= 0 {
            SettleLightens(accepted, id, Answered);
          }
        case _ =>
      }
    }
  }

  lemma SendLightens(c: Client)
    requires c.outbox != []
    ensures var (sent, frame) := SendNext(c);
            PhoneLoad(sent) <= PhoneLoad(c) - 3
  {
    var (sent, frame) := SendNext(c);
    if sent.flights == map[] {
      NoWeights(map[], c.nextCallId);
    } else if c.outbox[0].Call? {
      WeightsDiffer(c.flights, sent.flights, c.outbox[0].id, c.nextCallId);
    }
  }

  lemma ArrivalLightens(opener: VectorHost.Opener, seal: Sealer, s: Session)
    requires s.up != []
    ensures Load(Moved(opener, seal, s, Arrives)) < Load(s)
  {
    var w := Some(seal(s.up[0]));
    VectorHost.ReceivePushesLast(opener, s.host, w);
    VectorHost.PushesTheLast(VectorHost.Receive(opener, s.host, w).entries);
  }

  /** Every move with something to do leaves less to do. */
  lemma MoveLightens(opener: VectorHost.Opener, seal: Sealer, s: Session, m: Move)
    requires IsEffective(s, m)
    ensures Load(Moved(opener, seal, s, m)) < Load(s)
  {
    match m {
      case Leaves => SendLightens(s.phone);
      case Arrives => ArrivalLightens(opener, seal, s);
      case Reaches => HearLightens(s.phone, s.down[0]);
    }
  }

  predicate AreEffective(move: Mover, s: Session, moves: seq<Move>)
    decreases |moves|
  {
    moves == [] || (IsEffective(s, moves[0]) && AreEffective(move, move(s, moves[0]), moves[1..]))
  }

  /** No schedule goes on for longer than its session's load, whatever the two ends hold. */
  lemma {:induction false} SchedulesEnd(opener: VectorHost.Opener, seal: Sealer, s: Session, moves: seq<Move>)
    requires AreEffective(Moving(opener, seal), s, moves)
    ensures |moves| + Load(After(Moving(opener, seal), s, moves)) <= Load(s)
    decreases |moves|
  {
    if moves != [] {
      MoveLightens(opener, seal, s, moves[0]);
      SchedulesEnd(opener, seal, Moved(opener, seal, s, moves[0]), moves[1..]);
    }
  }

  /** And every session can be brought to rest. */
  lemma {:induction false} ComesToRest(opener: VectorHost.Opener, seal: Sealer, s: Session) returns (moves: seq<Move>)
    ensures AtRest(After(Moving(opener, seal), s, moves))
    decreases Load(s)
  {
    if AtRest(s) {
      moves := [];
    } else {
      var m := if s.phone.outbox != [] then Leaves else if s.up != [] then Arrives else Reaches;
      MoveLightens(opener, seal, s, m);
      var rest := ComesToRest(opener, seal, Moved(opener, seal, s, m));
      moves := [m] + rest;
      assert moves[1..] == rest;
    }
  }

  // ------------------------------------------------------------------- in lock-step

  /** The schedule on which each frame is replied to before the next one leaves. */
  function InStep(n: nat): seq<Move>
    decreases n
  {
    if n == 0 then [] else [Leaves, Arrives, Reaches] + InStep(n - 1)
  }

  lemma OneIsHeard(c: Client, entries: seq<Push>)
    requires forall i :: 0 <= i < |entries| - 1 ==> !entries[i].Pushed?
    ensures var pushes := VectorHost.Pushes(entries);
            && |pushes| <= 1
            && HearAll(c, entries) == if pushes == [] then c else Hear(c, pushes[0])
  {
    VectorHost.PushesTheLast(entries);
    if entries != [] {
      HearsTheLast(c, entries);
    }
  }

  lemma ReplyReaches(h: VectorHost.Host, c: Client, f: Frame, e: VectorHost.Effect)
    requires VectorHost.PushesLast(h, e)
    ensures var arrived := Replied(Session(h, c, [f], []), e);
            && |arrived.down| <= 1
            && arrived == Session(e.host, c, [], arrived.down)
            && HearAll(c, e.entries) == if arrived.down == [] then c else Hear(c, arrived.down[0])
  {
    OneIsHeard(c, e.entries);
    assert [f][1..] == [];
  }

  lemma ArrivesAndReaches(opener: VectorHost.Opener, seal: Sealer, h: VectorHost.Host, c: Client, f: Frame,
      e: VectorHost.Effect)
    requires e == VectorHost.Receive(opener, h, Some(seal(f)))
    ensures var arrived := Replied(Session(h, c, [f], []), e);
            Moved(opener, seal, arrived, Reaches) == Session(e.host, HearAll(c, e.entries), [], [])
  {
    VectorHost.ReceivePushesLast(opener, h, Some(seal(f)));
    ReplyReaches(h, c, f, e);
    var down := Replied(Session(h, c, [f], []), e).down;
    assert down != [] ==> down[1..] == [];
  }

  lemma ExchangeIsThreeMoves(opener: VectorHost.Opener, seal: Sealer, h: VectorHost.Host, c: Client)
    ensures var s1 := Moved(opener, seal, Session(h, c, [], []), Leaves);
            var (after, heard) := Exchange(opener, seal, h, c);
            Moved(opener, seal, Moved(opener, seal, s1, Arrives), Reaches) == Session(after, heard, [], [])
  {
    var (sent, frame) := SendNext(c);
    var s1 := Moved(opener, seal, Session(h, c, [], []), Leaves);
    if frame.Some? {
      var f := frame.value;
      var e := VectorHost.Receive(opener, h, Some(seal(f)));
      assert s1 == Session(h, sent, [f], []);
      assert Moved(opener, seal, s1, Arrives) == Replied(s1, e);
      ArrivesAndReaches(opener, seal, h, sent, f, e);
    } else {
      assert s1 == Session(h, sent, [], []);
    }
  }

  /** So the exchanges of the two ends, one after the other, are one of the schedules. */
  lemma {:induction false} ExchangesAreInStep(opener: VectorHost.Opener, seal: Sealer, h: VectorHost.Host, c: Client,
      n: nat)
    ensures var (after, heard) := Exchanges(Exchanging(opener, seal), h, c, n);
            After(Moving(opener, seal), Session(h, c, [], []), InStep(n)) == Session(after, heard, [], [])
    decreases n
  {
    if n > 0 {
      var move, s := Moving(opener, seal), Session(h, c, [], []);
      var (after, heard) := Exchange(opener, seal, h, c);
      ExchangeIsThreeMoves(opener, seal, h, c);
      ExchangesAreInStep(opener, seal, after, heard, n - 1);
      ThreeMoves(move, s, move(s, Leaves), move(move(s, Leaves), Arrives), InStep(n - 1));
    }
  }

  lemma ThreeMoves(move: Mover, s: Session, s1: Session, s2: Session, rest: seq<Move>)
    requires s1 == move(s, Leaves) && s2 == move(s1, Arrives)
    ensures After(move, s, [Leaves, Arrives, Reaches] + rest) == After(move, move(s2, Reaches), rest)
  {
    var two, one := [Arrives, Reaches] + rest, [Reaches] + rest;
    assert ([Leaves, Arrives, Reaches] + rest)[1..] == two && two[1..] == one && one[1..] == rest;
    assert After(move, s2, one) == After(move, move(s2, Reaches), rest);
    assert After(move, s1, two) == After(move, s2, one);
  }

  // -------------------------------------------------------- calls told by one hello

  /** The calls told under a challenge, in order, and what was there before them. */
  datatype Scene = Scene(keyId: nat, under: bytes, ids: seq<nat>, commands: map<nat, string>,
    ran: seq<string>, settled: map<nat, Settlement>)

  ghost predicate IsScene(k: Scene) {
    Distinct(k.ids) && |k.under| == 32 && forall id :: id in k.ids ==> id in k.commands
  }

  function IdSet(ids: seq<nat>): set<nat> { set id | id in ids }

  /** Counters rise one by one on both ways, and room is left for so many more frames. */
  ghost predicate IsCounted(s: Session, keyId: nat, left: int) {
    var sent, heard := Last(s.phone.lastSent, keyId), Last(s.phone.lastAccepted, keyId);
    && (forall i :: 0 <= i < |s.up| ==> s.up[i].ctr == sent - |s.up| + 1 + i)
    && s.host.lastAccepted <= sent - |s.up|
    && (forall i :: 0 <= i < |s.down| ==> s.down[i].Pushed? && s.down[i].ctr == s.host.ctr - |s.down| + 1 + i)
    && heard <= s.host.ctr - |s.down|
    && sent + left < COUNTER_LIMIT && s.host.ctr + |s.up| + left < COUNTER_LIMIT
  }

  lemma LeavingCounts(s: Session, after: Session, keyId: nat, left: int, f: Frame)
    requires IsCounted(s, keyId, left) && f.ctr == Last(s.phone.lastSent, keyId) + 1
    requires Last(after.phone.lastSent, keyId) == f.ctr
    requires Last(after.phone.lastAccepted, keyId) == Last(s.phone.lastAccepted, keyId)
    requires after.up == s.up + [f] && after.down == s.down && after.host == s.host
    ensures IsCounted(after, keyId, left - 1)
  {
  }

  lemma ArrivingCounts(s: Session, after: Session, keyId: nat, left: int, e: Push)
    requires IsCounted(s, keyId, left) && s.up != [] && e.Pushed? && e.ctr == s.host.ctr + 1 == after.host.ctr
    requires after.host.lastAccepted == s.up[0].ctr
    requires after.up == s.up[1..] && after.down == s.down + [e] && after.phone == s.phone
    ensures IsCounted(after, keyId, left)
  {
  }

  lemma ReachingCounts(s: Session, after: Session, keyId: nat, left: int)
    requires IsCounted(s, keyId, left) && s.down != [] && Last(after.phone.lastAccepted, keyId) == s.down[0].ctr
    requires Last(after.phone.lastSent, keyId) == Last(s.phone.lastSent, keyId)
    requires after.down == s.down[1..] && after.up == s.up && after.host == s.host
    ensures IsCounted(after, keyId, left)
  {
  }

  /** The frame of one of the calls. */
  predicate IsCallOf(k: Scene, f: Frame, c: bytes, id: nat) {
    f.CallFrame? && f.keyId == k.keyId && f.under == c && f.id == id && id in k.commands && f.command == k.commands[id]
  }

  predicate IsHello(e: Push, c: bytes) { e.Pushed? && e.plaintext == VectorHost.Hello && e.shown == Some(c) }

  predicate IsAnswer(e: Push, id: nat) { e.Pushed? && e.plaintext.Answer? && e.plaintext.id == id }

  // Before the first refusal was heard.

  /** So many calls were sent, for the first time and under the first challenge. */
  ghost predicate PhoneWaits(k: Scene, c: Client, sent: nat) {
    && sent <= |k.ids| && Distinct(k.ids)
    && c.keyId == k.keyId && c.challenge == Some(k.under) && c.settled == k.settled
    && c.outbox == Outs(k.ids[sent..]) && k.ids == InFlight(c.flights, c.nextCallId)
    && c.flights.Keys == IdSet(k.ids)
    && forall i :: 0 <= i < |k.ids| ==>
         && k.ids[i] in c.flights && k.ids[i] in k.commands
         && c.flights[k.ids[i]]
            == Flight(k.commands[k.ids[i]], if i < sent then Sent(k.under) else Queued, false)
  }

  /** Frames of the first of those calls, under the first challenge. */
  ghost predicate AreCallsOf(k: Scene, up: seq<Frame>, ids: seq<nat>) {
    |up| <= |ids| && forall i :: 0 <= i < |up| ==> IsCallOf(k, up[i], k.under, ids[i])
  }

  /** The frames of the calls from one place on. */
  ghost predicate AreFirst(k: Scene, up: seq<Frame>, arrived: nat) {
    arrived <= |k.ids| && AreCallsOf(k, up, k.ids[arrived..])
  }

  /** A host that refuses once before it runs calls: under the first challenge, or by now under the next. */
  ghost predicate HostRefuses(k: Scene, h: VectorHost.Host, arrived: nat, next: bytes) {
    && h.ran == k.ran
    && if arrived == 0 then CanAnswer(h, k.under) && VectorHost.Sends(h, k.under) == 2
       else h.held == Some(next) && |next| == 32 && next != k.under && h.restarts <= 0
  }

  ghost predicate AreHellos(down: seq<Push>, next: bytes) { forall i :: 0 <= i < |down| ==> IsHello(down[i], next) }

  ghost predicate IsFirst(k: Scene, s: Session, sent: nat, arrived: nat, next: bytes) {
    && arrived <= sent && |s.up| == sent - arrived && |s.down| == arrived
    && PhoneWaits(k, s.phone, sent) && AreFirst(k, s.up, arrived) && HostRefuses(k, s.host, arrived, next)
    && AreHellos(s.down, next) && IsCounted(s, k.keyId, 2 * |k.ids| - sent)
  }

  // Under the challenge that calls run under.

  /** Of the calls in this order so many were sent under the challenge, and so many answers heard. */
  ghost predicate PhoneFlows(k: Scene, c: Client, order: seq<nat>, answered: nat, sent: nat, now: bytes) {
    && answered <= sent <= |order| && Distinct(order)
    && c.keyId == k.keyId && c.challenge == Some(now) && c.outbox == Outs(order[sent..])
    && c.flights.Keys == IdSet(order[answered..])
    && (forall i :: answered <= i < |order| ==>
          && order[i] in c.flights && order[i] in k.commands && order[i] < c.nextCallId
          && c.flights[order[i]].command == k.commands[order[i]]
          && c.flights[order[i]].stage == if i < sent then Sent(now) else Queued)
    && c.settled == k.settled + Done(order[..answered])
  }

  function Done(ids: seq<nat>): map<nat, Settlement> { map id | id in ids :: Answered }

  /** A frame under an earlier challenge. */
  predicate IsStale(k: Scene, f: Frame, now: bytes) {
    f.CallFrame? && f.under != now && |f.under| == 32 && IsCallOf(k, f, f.under, f.id)
  }

  /** Stale frames, and behind them those under the challenge. */
  ghost predicate UpFlows(k: Scene, up: seq<Frame>, order: seq<nat>, arrived: nat, sent: nat, now: bytes) {
    && arrived <= sent <= |order| && |up| >= sent - arrived
    && var stale := |up| - (sent - arrived);
       && (stale > 0 ==> arrived == 0)
       && (forall i :: 0 <= i < stale ==> IsStale(k, up[i], now))
       && (forall i :: stale <= i < |up| ==> IsCallOf(k, up[i], now, order[arrived + i - stale]))
  }

  ghost predicate HostRuns(k: Scene, h: VectorHost.Host, order: seq<nat>, arrived: nat, now: bytes) {
    && |now| == 32 && h.held == Some(now) && h.restarts <= 0
    && arrived <= |order| && (forall id :: id in order[..arrived] ==> id in k.commands)
    && h.ran == k.ran + CommandsOf(order[..arrived], k.commands)
  }

  /** Hellos that show the challenge, and behind them answers. */
  ghost predicate DownFlows(down: seq<Push>, order: seq<nat>, answered: nat, arrived: nat, now: bytes) {
    && answered <= arrived <= |order| && |down| >= arrived - answered
    && var hellos := |down| - (arrived - answered);
       && (hellos > 0 ==> answered == 0)
       && (forall i :: 0 <= i < hellos ==> IsHello(down[i], now))
       && (forall i :: hellos <= i < |down| ==> IsAnswer(down[i], order[answered + i - hellos]))
  }

  /** The calls from one place on, then those before it. */
  function Turned(ids: seq<nat>, turn: nat): seq<nat>
    requires turn <= |ids|
  {
    ids[turn..] + ids[..turn]
  }

  ghost predicate Flows(k: Scene, s: Session, order: seq<nat>, answered: nat, arrived: nat, sent: nat, now: bytes) {
    && PhoneFlows(k, s.phone, order, answered, sent, now)
    && UpFlows(k, s.up, order, arrived, sent, now)
    && HostRuns(k, s.host, order, arrived, now)
    && DownFlows(s.down, order, answered, arrived, now)
    && IsCounted(s, k.keyId, |order| - sent)
  }

  // ------------------------------------------------------------------ a call arrives

  /** A call that arrives with room for its reply. */
  lemma CallArrives(opener: VectorHost.Opener, seal: Sealer, k: Scene, s: Session, c: bytes, id: nat)
    requires SealsEach(opener, seal, k.keyId, k.commands) && s.up != [] && IsCallOf(k, s.up[0], c, id) && |c| == 32
    requires s.host.lastAccepted < s.up[0].ctr < COUNTER_LIMIT
    requires VectorHost.CanReply(s.host) && VectorHost.HasRoom(s.host, 1)
    ensures var reply := VectorHost.Reply(s.host, s.up[0].ctr, c, id, k.commands[id]);
            Moved(opener, seal, s, Arrives) == s.(host := reply.0, up := s.up[1..], down := s.down + [reply.1])
  {
    var ctr, command := s.up[0].ctr, k.commands[id];
    assert s.up[0] == CallFrame(k.keyId, ctr, c, id, command);
    VectorHost.RepliesToCall(opener, s.host, ClientOf(seal, k.keyId, id, command), c, ctr, id, command);
  }

  lemma NextArrives(s: Session, keyId: nat, left: nat)
    requires IsCounted(s, keyId, left) && s.up != []
    ensures s.host.lastAccepted < s.up[0].ctr < COUNTER_LIMIT && VectorHost.HasRoom(s.host, 1)
  {
  }

  // ---------------------------------------------------------------- moves of the flow

  lemma OutsTail(order: seq<nat>, sent: nat)
    requires sent < |order|
    ensures Outs(order[sent..])[0] == Call(order[sent]) && Outs(order[sent..])[1..] == Outs(order[sent + 1..])
  {
  }

  lemma PhoneFlowsOn(k: Scene, c: Client, order: seq<nat>, answered: nat, sent: nat, now: bytes)
    requires PhoneFlows(k, c, order, answered, sent, now) && c.outbox != []
    requires Last(c.lastSent, c.keyId) + 1 < COUNTER_LIMIT
    ensures sent < |order|
    ensures var (after, frame) := SendNext(c);
            && PhoneFlows(k, after, order, answered, sent + 1, now)
            && frame.Some? && IsCallOf(k, frame.value, now, order[sent])
            && frame.value.ctr == Last(c.lastSent, k.keyId) + 1 == Last(after.lastSent, k.keyId)
            && after.lastAccepted == c.lastAccepted
  {
    OutsTail(order, sent);
  }

  lemma UpGrows(k: Scene, up: seq<Frame>, order: seq<nat>, arrived: nat, sent: nat, now: bytes, f: Frame)
    requires UpFlows(k, up, order, arrived, sent, now) && sent < |order| && IsCallOf(k, f, now, order[sent])
    ensures UpFlows(k, up + [f], order, arrived, sent + 1, now)
  {
  }

  lemma FlowLeaves(opener: VectorHost.Opener, seal: Sealer, k: Scene, s: Session,
      order: seq<nat>, answered: nat, arrived: nat, sent: nat, now: bytes)
    requires Flows(k, s, order, answered, arrived, sent, now) && s.phone.outbox != []
    ensures sent < |order|
    ensures Flows(k, Moved(opener, seal, s, Leaves), order, answered, arrived, sent + 1, now)
  {
    var after, f := Moved(opener, seal, s, Leaves), SendNext(s.phone).1;
    PhoneFlowsOn(k, s.phone, order, answered, sent, now);
    UpGrows(k, s.up, order, arrived, sent, now, f.value);
    LeavingCounts(s, after, k.keyId, |order| - sent, f.value);
  }

  lemma StaleUpShrinks(k: Scene, up: seq<Frame>, order: seq<nat>, sent: nat, now: bytes)
    requires UpFlows(k, up, order, 0, sent, now) && |up| > sent
    ensures UpFlows(k, up[1..], order, 0, sent, now) && IsStale(k, up[0], now)
  {
  }

  lemma UpShrinks(k: Scene, up: seq<Frame>, order: seq<nat>, arrived: nat, sent: nat, now: bytes)
    requires UpFlows(k, up, order, arrived, sent, now) && |up| == sent - arrived && up != []
    ensures UpFlows(k, up[1..], order, arrived + 1, sent, now) && IsCallOf(k, up[0], now, order[arrived])
  {
  }

  lemma HelloFollows(down: seq<Push>, order: seq<nat>, now: bytes, e: Push)
    requires DownFlows(down, order, 0, 0, now) && IsHello(e, now)
    ensures DownFlows(down + [e], order, 0, 0, now)
  {
  }

  lemma AnswerFollows(down: seq<Push>, order: seq<nat>, answered: nat, arrived: nat, now: bytes, e: Push)
    requires DownFlows(down, order, answered, arrived, now) && arrived < |order| && IsAnswer(e, order[arrived])
    ensures DownFlows(down + [e], order, answered, arrived + 1, now)
  {
  }

  lemma HostRunsNext(k: Scene, h: VectorHost.Host, order: seq<nat>, arrived: nat, now: bytes, after: VectorHost.Host)
    requires HostRuns(k, h, order, arrived, now) && arrived < |order| && order[arrived] in k.commands
    requires after.held == h.held && after.restarts == h.restarts
    requires after.ran == h.ran + [k.commands[order[arrived]]]
    ensures HostRuns(k, after, order, arrived + 1, now)
  {
    var before, id := order[..arrived], order[arrived];
    assert order[..arrived + 1] == before + [id];
    assert CommandsOf(before + [id], k.commands) == CommandsOf(before, k.commands) + [k.commands[id]];
  }

  /** A stale frame is refused by a hello that shows the challenge again. */
  lemma StaleArrives(opener: VectorHost.Opener, seal: Sealer, k: Scene, s: Session,
      order: seq<nat>, answered: nat, sent: nat, now: bytes)
    requires SealsEach(opener, seal, k.keyId, k.commands)
    requires Flows(k, s, order, answered, 0, sent, now) && |s.up| > sent
    ensures Flows(k, Moved(opener, seal, s, Arrives), order, answered, 0, sent, now)
  {
    var f, after := s.up[0], Moved(opener, seal, s, Arrives);
    StaleUpShrinks(k, s.up, order, sent, now);
    NextArrives(s, k.keyId, |order| - sent);
    CallArrives(opener, seal, k, s, f.under, f.id);
    var e := VectorHost.Reply(s.host, f.ctr, f.under, f.id, k.commands[f.id]).1;
    HelloFollows(s.down, order, now, e);
    ArrivingCounts(s, after, k.keyId, |order| - sent, e);
  }

  /** A frame under the challenge runs, and its answer is on its way. */
  lemma FreshArrives(opener: VectorHost.Opener, seal: Sealer, k: Scene, s: Session,
      order: seq<nat>, answered: nat, arrived: nat, sent: nat, now: bytes)
    requires SealsEach(opener, seal, k.keyId, k.commands)
    requires Flows(k, s, order, answered, arrived, sent, now) && |s.up| == sent - arrived && s.up != []
    ensures Flows(k, Moved(opener, seal, s, Arrives), order, answered, arrived + 1, sent, now)
  {
    var f, after, id := s.up[0], Moved(opener, seal, s, Arrives), order[arrived];
    UpShrinks(k, s.up, order, arrived, sent, now);
    NextArrives(s, k.keyId, |order| - sent);
    CallArrives(opener, seal, k, s, now, id);
    var reply := VectorHost.Reply(s.host, f.ctr, now, id, k.commands[id]);
    AnswerFollows(s.down, order, answered, arrived, now, reply.1);
    HostRunsNext(k, s.host, order, arrived, now, reply.0);
    ArrivingCounts(s, after, k.keyId, |order| - sent, reply.1);
  }

  lemma {:induction false} TellsNone(tell: (Client, nat) -> Client, c: Client, n: nat)
    requires forall id :: tell(c, id) == c
    ensures TellUpTo(tell, c, n) == c
  {
    if n > 0 {
      TellsNone(tell, c, n - 1);
    }
  }

  /** The challenge that calls were sent under is no news to them. */
  lemma NoNews(c: Client, now: bytes)
    requires c.challenge == Some(now)
    requires forall id :: id in c.flights ==> c.flights[id].stage == Queued || c.flights[id].stage == Sent(now)
    ensures HearChallenge(c, now) == c
  {
    var tell := Telling(now);
    forall id
      ensures tell(c, id) == c
    {
    }
    TellsNone(tell, c, c.nextCallId);
  }

  lemma PhoneKnows(k: Scene, c: Client, order: seq<nat>, answered: nat, sent: nat, now: bytes)
    requires PhoneFlows(k, c, order, answered, sent, now)
    ensures HearChallenge(c, now) == c
  {
    forall id | id in c.flights
      ensures c.flights[id].stage == Queued || c.flights[id].stage == Sent(now)
    {
      assert id in order[answered..];
      var i :| answered <= i < |order| && order[i] == id;
    }
    NoNews(c, now);
  }

  lemma HelloLeavesDown(down: seq<Push>, order: seq<nat>, answered: nat, arrived: nat, now: bytes)
    requires DownFlows(down, order, answered, arrived, now) && |down| > arrived - answered
    ensures DownFlows(down[1..], order, answered, arrived, now) && IsHello(down[0], now)
  {
  }

  /** A push that is newer than the last one. */
  lemma HearsPush(c: Client, e: Push)
    requires e.Pushed? && e.ctr > Last(c.lastAccepted, c.keyId)
    ensures var accepted := c.(lastAccepted := c.lastAccepted[c.keyId := e.ctr]);
            && (forall now :: IsHello(e, now) ==> Hear(c, e) == HearChallenge(accepted, now))
            && (forall id :: IsAnswer(e, id) ==> Hear(c, e) == Settle(accepted, id, Answered))
  {
  }

  lemma HelloReaches(opener: VectorHost.Opener, seal: Sealer, k: Scene, s: Session,
      order: seq<nat>, answered: nat, arrived: nat, sent: nat, now: bytes)
    requires Flows(k, s, order, answered, arrived, sent, now) && |s.down| > arrived - answered
    ensures Flows(k, Moved(opener, seal, s, Reaches), order, answered, arrived, sent, now)
  {
    var c, e, after := s.phone, s.down[0], Moved(opener, seal, s, Reaches);
    var accepted := c.(lastAccepted := c.lastAccepted[c.keyId := e.ctr]);
    HelloLeavesDown(s.down, order, answered, arrived, now);
    HearsPush(c, e);
    PhoneKnows(k, accepted, order, answered, sent, now);
    assert after == s.(phone := accepted, down := s.down[1..]);
    ReachingCounts(s, after, k.keyId, |order| - sent);
  }

  lemma AnswerLeavesDown(down: seq<Push>, order: seq<nat>, answered: nat, arrived: nat, now: bytes)
    requires DownFlows(down, order, answered, arrived, now) && |down| == arrived - answered && down != []
    ensures DownFlows(down[1..], order, answered + 1, arrived, now) && IsAnswer(down[0], order[answered])
  {
  }

  lemma RestOf(order: seq<nat>, answered: nat)
    requires answered < |order| && Distinct(order)
    ensures IdSet(order[answered + 1..]) == IdSet(order[answered..]) - {order[answered]}
  {
    var id, rest := order[answered], order[answered + 1..];
    assert order[answered..] == [id] + rest;
    assert forall i :: 0 <= i < |rest| ==> rest[i] == order[answered + 1 + i];
  }

  lemma DoneNext(settled: map<nat, Settlement>, order: seq<nat>, answered: nat)
    requires answered < |order|
    ensures settled + Done(order[..answered + 1]) == (settled + Done(order[..answered]))[order[answered] := Answered]
  {
    assert order[..answered + 1] == order[..answered] + [order[answered]];
  }

  lemma PhoneSettles(k: Scene, c: Client, order: seq<nat>, answered: nat, sent: nat, now: bytes)
    requires PhoneFlows(k, c, order, answered, sent, now) && answered < sent
    ensures PhoneFlows(k, Settle(c, order[answered], Answered), order, answered + 1, sent, now)
  {
    var id := order[answered];
    var after := Settle(c, id, Answered);
    RestOf(order, answered);
    DoneNext(k.settled, order, answered);
    assert id in c.flights && after.flights == c.flights - {id};
    assert after.flights.Keys == c.flights.Keys - {id};
    forall i | answered + 1 <= i < |order|
      ensures order[i] in after.flights && after.flights[order[i]] == c.flights[order[i]]
    {
      assert order[i] != id;
    }
  }

  lemma AnswerReaches(opener: VectorHost.Opener, seal: Sealer, k: Scene, s: Session,
      order: seq<nat>, answered: nat, arrived: nat, sent: nat, now: bytes)
    requires Flows(k, s, order, answered, arrived, sent, now) && |s.down| == arrived - answered && s.down != []
    ensures Flows(k, Moved(opener, seal, s, Reaches), order, answered + 1, arrived, sent, now)
  {
    var c, e, after := s.phone, s.down[0], Moved(opener, seal, s, Reaches);
    var accepted := c.(lastAccepted := c.lastAccepted[c.keyId := e.ctr]);
    AnswerLeavesDown(s.down, order, answered, arrived, now);
    HearsPush(c, e);
    PhoneSettles(k, accepted, order, answered, sent, now);
    assert after == s.(phone := Settle(accepted, order[answered], Answered), down := s.down[1..]);
    ReachingCounts(s, after, k.keyId, |order| - sent);
  }

  // -------------------------------------------------- moves before the first refusal

  lemma PhoneWaitsOn(k: Scene, c: Client, sent: nat)
    requires PhoneWaits(k, c, sent) && c.outbox != [] && Last(c.lastSent, c.keyId) + 1 < COUNTER_LIMIT
    ensures sent < |k.ids|
    ensures var (after, frame) := SendNext(c);
            && PhoneWaits(k, after, sent + 1)
            && frame.Some? && IsCallOf(k, frame.value, k.under, k.ids[sent])
            && frame.value.ctr == Last(c.lastSent, k.keyId) + 1 == Last(after.lastSent, k.keyId)
            && after.lastAccepted == c.lastAccepted
  {
    var after := SendNext(c).0;
    OutsTail(k.ids, sent);
    InFlightByKeys(c.flights, after.flights, c.nextCallId);
  }

  lemma {:induction false} InFlightByKeys(f: map<nat, Flight>, g: map<nat, Flight>, n: nat)
    requires f.Keys == g.Keys
    ensures InFlight(f, n) == InFlight(g, n)
  {
    if n > 0 {
      InFlightByKeys(f, g, n - 1);
      assert n - 1 in f <==> n - 1 in g.Keys;
    }
  }

  lemma FirstGrows(k: Scene, up: seq<Frame>, arrived: nat, f: Frame)
    requires AreFirst(k, up, arrived) && arrived + |up| < |k.ids|
    requires IsCallOf(k, f, k.under, k.ids[arrived + |up|])
    ensures AreFirst(k, up + [f], arrived)
  {
    var ids := k.ids[arrived..];
    assert ids[|up|] == k.ids[arrived + |up|];
    assert AreCallsOf(k, up + [f], ids);
  }

  lemma FirstLeaves(opener: VectorHost.Opener, seal: Sealer, k: Scene, s: Session, sent: nat, arrived: nat, next: bytes)
    requires IsFirst(k, s, sent, arrived, next) && s.phone.outbox != []
    ensures IsFirst(k, Moved(opener, seal, s, Leaves), sent + 1, arrived, next)
  {
    var after, f := Moved(opener, seal, s, Leaves), SendNext(s.phone).1;
    PhoneWaitsOn(k, s.phone, sent);
    assert arrived + |s.up| == sent;
    FirstGrows(k, s.up, arrived, f.value);
    assert after == s.(phone := SendNext(s.phone).0, up := s.up + [f.value]);
    LeavingCounts(s, after, k.keyId, 2 * |k.ids| - sent, f.value);
    assert PhoneWaits(k, after.phone, sent + 1) && AreFirst(k, after.up, arrived);
    assert IsCounted(after, k.keyId, 2 * |k.ids| - (sent + 1));
  }

  lemma FirstShrinks(k: Scene, up: seq<Frame>, arrived: nat)
    requires AreFirst(k, up, arrived) && up != []
    ensures AreFirst(k, up[1..], arrived + 1) && arrived < |k.ids| && IsCallOf(k, up[0], k.under, k.ids[arrived])
  {
    var ids, rest := k.ids[arrived..], up[1..];
    assert ids[0] == k.ids[arrived] && ids[1..] == k.ids[arrived + 1..];
    forall i | 0 <= i < |rest|
      ensures IsCallOf(k, rest[i], k.under, ids[1..][i])
    {
      assert rest[i] == up[i + 1] && ids[1..][i] == ids[i + 1];
    }
    assert AreCallsOf(k, rest, ids[1..]);
  }

  /** What the host makes of the next frame under the first challenge. */
  lemma HostRefusesOn(k: Scene, h: VectorHost.Host, arrived: nat, next: bytes, ctr: nat, id: nat, command: string)
    requires HostRefuses(k, h, arrived, next)
    ensures VectorHost.CanReply(h)
    ensures var (after, e) := VectorHost.Reply(h, ctr, k.under, id, command);
            && after.held.Some? && HostRefuses(k, after, arrived + 1, after.held.value)
            && IsHello(e, after.held.value) && (arrived > 0 ==> after.held == Some(next))
            && e.ctr == h.ctr + 1 == after.ctr && after.lastAccepted == ctr
  {
    if arrived == 0 {
      NextIsOther(h, k.under, ctr, id, command);
    }
  }

  /** The first frame is refused by a hello that shows the next challenge, the others by the same one. */
  lemma FirstArrives(opener: VectorHost.Opener, seal: Sealer, k: Scene, s: Session,
      sent: nat, arrived: nat, next: bytes)
    returns (shown: bytes)
    requires SealsEach(opener, seal, k.keyId, k.commands) && IsScene(k)
    requires IsFirst(k, s, sent, arrived, next) && s.up != []
    ensures IsFirst(k, Moved(opener, seal, s, Arrives), sent, arrived + 1, shown)
  {
    FirstShrinks(k, s.up, arrived);
    var ctr, id, after := s.up[0].ctr, k.ids[arrived], Moved(opener, seal, s, Arrives);
    NextArrives(s, k.keyId, 2 * |k.ids| - sent);
    HostRefusesOn(k, s.host, arrived, next, ctr, id, k.commands[id]);
    CallArrives(opener, seal, k, s, k.under, id);
    var (host, e) := VectorHost.Reply(s.host, ctr, k.under, id, k.commands[id]);
    shown := host.held.value;
    ArrivingCounts(s, after, k.keyId, 2 * |k.ids| - sent, e);
  }

  lemma NextIsOther(h: VectorHost.Host, under: bytes, ctr: nat, id: nat, command: string)
    requires CanAnswer(h, under) && VectorHost.Sends(h, under) == 2
    ensures VectorHost.CanReply(h)
    ensures var (after, e) := VectorHost.Reply(h, ctr, under, id, command);
            && after.held.Some? && |after.held.value| == 32 && after.held.value != under && after.restarts <= 0
            && after.ran == h.ran && IsHello(e, after.held.value)
  {
  }

  /** The calls below an id that a challenge finds sent under another one. */
  function Outdated(flights: map<nat, Flight>, news: bytes, n: nat): seq<nat> {
    if n == 0 then []
    else
      var id := n - 1;
      Outdated(flights, news, id)
      + if id in flights && flights[id].stage.Sent? && flights[id].stage.under != news then [id] else []
  }

  /** Those calls queued again. */
  function Requeued(flights: map<nat, Flight>, news: bytes, n: nat): map<nat, Flight> {
    map id | id in flights ::
      var flight := flights[id];
      if id < n && flight.stage.Sent? && flight.stage.under != news then Flight(flight.command, Queued, true)
      else flight
  }

  /** A challenge that finds no call resent or waiting queues those sent under another one again. */
  lemma {:induction false} TellsTheOutdated(news: bytes, c: Client, n: nat)
    requires forall id :: id in c.flights ==> !c.flights[id].isResent && c.flights[id].stage != AwaitingChallenge
    ensures TellUpTo(Telling(news), c, n)
            == c.(flights := Requeued(c.flights, news, n), outbox := c.outbox + Outs(Outdated(c.flights, news, n)))
  {
    if n == 0 {
      assert Requeued(c.flights, news, 0) == c.flights && c.outbox + Outs([]) == c.outbox;
    } else {
      TellsTheOutdated(news, c, n - 1);
      OutdatedNext(news, c, n - 1);
    }
  }

  lemma OutdatedNext(news: bytes, c: Client, id: nat)
    requires forall i :: i in c.flights ==> !c.flights[i].isResent && c.flights[i].stage != AwaitingChallenge
    ensures Tell(c.(flights := Requeued(c.flights, news, id), outbox := c.outbox + Outs(Outdated(c.flights, news, id))),
              id, news)
            == c.(flights := Requeued(c.flights, news, id + 1),
                  outbox := c.outbox + Outs(Outdated(c.flights, news, id + 1)))
  {
    var ids := Outdated(c.flights, news, id);
    if id in c.flights && c.flights[id].stage.Sent? && c.flights[id].stage.under != news {
      assert Requeued(c.flights, news, id + 1)
          == Requeued(c.flights, news, id)[id := Flight(c.flights[id].command, Queued, true)];
      assert Outs(ids + [id]) == Outs(ids) + [Call(id)];
      Associates(c.outbox, Outs(ids), [Call(id)]);
    } else {
      assert Requeued(c.flights, news, id + 1) == Requeued(c.flights, news, id);
      assert ids + [] == ids;
    }
  }

  /** Of calls sent in the order of their ids these are the first. */
  lemma {:induction false} OutdatedAreFirst(flights: map<nat, Flight>, news: bytes, n: nat, ids: seq<nat>, sent: nat)
    requires ids == InFlight(flights, n) && sent <= |ids| && Distinct(ids)
    requires forall i :: 0 <= i < |ids| ==>
               ids[i] in flights
               && (i < sent <==> flights[ids[i]].stage.Sent? && flights[ids[i]].stage.under != news)
    ensures Outdated(flights, news, n) == ids[..sent]
  {
    if n > 0 {
      var id, init := n - 1, InFlight(flights, n - 1);
      if id in flights {
        assert ids == init + [id] && ids[|init|] == id;
        assert forall i :: 0 <= i < |init| ==> init[i] == ids[i];
        if sent == |ids| {
          OutdatedAreFirst(flights, news, id, init, sent - 1);
          assert ids[..sent] == init[..sent - 1] + [id];
        } else {
          OutdatedAreFirst(flights, news, id, init, sent);
          assert ids[..sent] == init[..sent];
        }
      } else {
        assert ids == init;
        OutdatedAreFirst(flights, news, id, ids, sent);
      }
    }
  }

  lemma TurnedKeeps(k: Scene, turn: nat)
    requires IsScene(k) && turn <= |k.ids|
    ensures var order := Turned(k.ids, turn);
            && Distinct(order) && |order| == |k.ids| && IdSet(order) == IdSet(k.ids)
            && Outs(k.ids[turn..]) + Outs(k.ids[..turn]) == Outs(order)
  {
    var order := Turned(k.ids, turn);
    forall i, j | 0 <= i < j < |order|
      ensures order[i] != order[j]
    {
      assert order[i] == k.ids[if i < |k.ids| - turn then turn + i else i - (|k.ids| - turn)];
      assert order[j] == k.ids[if j < |k.ids| - turn then turn + j else j - (|k.ids| - turn)];
    }
    assert k.ids == k.ids[..turn] + k.ids[turn..];
  }

  /** The first hello queues the calls that were sent again, behind those that were not. */
  lemma PhoneRequeues(k: Scene, c: Client, sent: nat, next: bytes)
    requires IsScene(k) && PhoneWaits(k, c, sent) && next != k.under
    ensures HearChallenge(c, next)
            == c.(challenge := Some(next), flights := Requeued(c.flights, next, c.nextCallId),
                  outbox := Outs(Turned(k.ids, sent)))
  {
    AllWaiting(k, c, sent);
    TellsTheOutdated(next, c.(challenge := Some(next)), c.nextCallId);
    OutdatedAreFirst(c.flights, next, c.nextCallId, k.ids, sent);
    TurnedKeeps(k, sent);
  }

  lemma AllQueued(k: Scene, c: Client, sent: nat, next: bytes, id: nat)
    requires IsScene(k) && PhoneWaits(k, c, sent) && next != k.under && id in k.ids
    ensures var flights := Requeued(c.flights, next, c.nextCallId);
            && id in k.commands && id < c.nextCallId
            && id in flights && flights[id].command == k.commands[id] && flights[id].stage == Queued
  {
    InFlightAre(c.flights, c.nextCallId);
    var i :| 0 <= i < |k.ids| && k.ids[i] == id;
  }

  lemma PhoneTurns(k: Scene, c: Client, sent: nat, next: bytes)
    requires IsScene(k) && PhoneWaits(k, c, sent) && next != k.under
    ensures PhoneFlows(k, HearChallenge(c, next), Turned(k.ids, sent), 0, 0, next)
    ensures var after := HearChallenge(c, next); after.lastSent == c.lastSent && after.lastAccepted == c.lastAccepted
  {
    var order: seq<nat>, after := Turned(k.ids, sent), HearChallenge(c, next);
    PhoneRequeues(k, c, sent, next);
    TurnedKeeps(k, sent);
    assert after.flights.Keys == c.flights.Keys == IdSet(order);
    forall i | 0 <= i < |order|
      ensures order[i] in k.commands && order[i] < c.nextCallId && order[i] in after.flights
      ensures after.flights[order[i]].command == k.commands[order[i]] && after.flights[order[i]].stage == Queued
    {
      assert order[i] in IdSet(order);
      AllQueued(k, c, sent, next, order[i]);
    }
    NoneYet(k, after, order, next);
  }

  lemma NoneYet(k: Scene, c: Client, order: seq<nat>, now: bytes)
    requires c.keyId == k.keyId && c.challenge == Some(now) && c.outbox == Outs(order)
    requires c.flights.Keys == IdSet(order) && c.settled == k.settled && Distinct(order)
    requires forall i :: 0 <= i < |order| ==>
               && order[i] in k.commands && order[i] < c.nextCallId && order[i] in c.flights
               && c.flights[order[i]].command == k.commands[order[i]] && c.flights[order[i]].stage == Queued
    ensures PhoneFlows(k, c, order, 0, 0, now)
  {
    assert order[0..] == order && order[..0] == [] && k.settled + Done([]) == k.settled;
  }

  lemma AllWaiting(k: Scene, c: Client, sent: nat)
    requires PhoneWaits(k, c, sent)
    ensures forall id :: id in c.flights ==> !c.flights[id].isResent && c.flights[id].stage != AwaitingChallenge
  {
    forall id | id in c.flights
      ensures !c.flights[id].isResent && c.flights[id].stage != AwaitingChallenge
    {
      assert id in k.ids;
      var i :| 0 <= i < |k.ids| && k.ids[i] == id;
    }
  }

  lemma UpTurns(k: Scene, up: seq<Frame>, arrived: nat, order: seq<nat>, next: bytes)
    requires AreFirst(k, up, arrived) && |k.under| == 32 && next != k.under
    ensures UpFlows(k, up, order, 0, 0, next)
  {
    forall i | 0 <= i < |up|
      ensures IsStale(k, up[i], next)
    {
      assert IsCallOf(k, up[i], k.under, k.ids[arrived..][i]);
    }
  }

  lemma FewerCount(s: Session, keyId: nat, left: int, fewer: int)
    requires IsCounted(s, keyId, left) && fewer <= left
    ensures IsCounted(s, keyId, fewer)
  {
  }

  lemma FirstReaches(opener: VectorHost.Opener, seal: Sealer, k: Scene, s: Session,
      sent: nat, arrived: nat, next: bytes)
    requires IsScene(k) && IsFirst(k, s, sent, arrived, next) && s.down != []
    ensures Flows(k, Moved(opener, seal, s, Reaches), Turned(k.ids, sent), 0, 0, 0, next)
  {
    var c, e, after, order := s.phone, s.down[0], Moved(opener, seal, s, Reaches), Turned(k.ids, sent);
    var accepted := c.(lastAccepted := c.lastAccepted[c.keyId := e.ctr]);
    HearsPush(c, e);
    assert IsHello(e, next) && PhoneWaits(k, accepted, sent);
    assert after == s.(phone := HearChallenge(accepted, next), down := s.down[1..]);
    PhoneTurns(k, accepted, sent, next);
    UpTurns(k, s.up, arrived, order, next);
    assert HostRuns(k, s.host, order, 0, next) by {
      assert order[..0] == [] && k.ran + [] == k.ran;
    }
    ReachingCounts(s, after, k.keyId, 2 * |k.ids| - sent);
    FewerCount(after, k.keyId, 2 * |k.ids| - sent, |k.ids|);
  }

  // ------------------------------------------------------------------ every schedule

  ghost predicate IsTurned(ids: seq<nat>, order: seq<nat>) {
    exists turn: nat :: turn <= |ids| && order == Turned(ids, turn)
  }

  /** Before the first refusal was heard. */
  ghost predicate IsEarly(k: Scene, s: Session) {
    exists sent: nat, arrived: nat, next: bytes :: IsFirst(k, s, sent, arrived, next)
  }

  /** Under the challenge that calls run under. */
  ghost predicate IsFlowing(k: Scene, s: Session) {
    exists order: seq<nat>, answered: nat, arrived: nat, sent: nat, now: bytes ::
      IsTurned(k.ids, order) && Flows(k, s, order, answered, arrived, sent, now)
  }

  ghost function Early(k: Scene): Session -> bool { (s: Session) => IsEarly(k, s) }

  ghost function Flowing(k: Scene): Session -> bool { (s: Session) => IsFlowing(k, s) }

  /** A move with something to do leads from the one to the other. */
  ghost predicate Leads(move: Mover, m: Move, from: Session -> bool, to: Session -> bool) {
    forall s :: from(s) && IsEffective(s, m) ==> to(move(s, m))
  }

  lemma EarlyLeaves(opener: VectorHost.Opener, seal: Sealer, k: Scene)
    ensures Leads(Moving(opener, seal), Leaves, Early(k), Early(k))
  {
    forall s | Early(k)(s) && s.phone.outbox != []
      ensures IsEarly(k, Moved(opener, seal, s, Leaves))
    {
      var sent: nat, arrived: nat, next: bytes :| IsFirst(k, s, sent, arrived, next);
      FirstLeaves(opener, seal, k, s, sent, arrived, next);
    }
  }

  lemma EarlyArrives(opener: VectorHost.Opener, seal: Sealer, k: Scene)
    requires SealsEach(opener, seal, k.keyId, k.commands) && IsScene(k)
    ensures Leads(Moving(opener, seal), Arrives, Early(k), Early(k))
  {
    forall s | Early(k)(s) && s.up != []
      ensures IsEarly(k, Moved(opener, seal, s, Arrives))
    {
      var sent: nat, arrived: nat, next: bytes :| IsFirst(k, s, sent, arrived, next);
      var shown := FirstArrives(opener, seal, k, s, sent, arrived, next);
    }
  }

  lemma EarlyReaches(opener: VectorHost.Opener, seal: Sealer, k: Scene)
    requires IsScene(k)
    ensures Leads(Moving(opener, seal), Reaches, Early(k), Flowing(k))
  {
    forall s | Early(k)(s) && s.down != []
      ensures IsFlowing(k, Moved(opener, seal, s, Reaches))
    {
      var sent: nat, arrived: nat, next: bytes :| IsFirst(k, s, sent, arrived, next);
      FirstReaches(opener, seal, k, s, sent, arrived, next);
      assert IsTurned(k.ids, Turned(k.ids, sent));
    }
  }

  lemma FlowingLeaves(opener: VectorHost.Opener, seal: Sealer, k: Scene)
    ensures Leads(Moving(opener, seal), Leaves, Flowing(k), Flowing(k))
  {
    forall s | Flowing(k)(s) && s.phone.outbox != []
      ensures IsFlowing(k, Moved(opener, seal, s, Leaves))
    {
      var order: seq<nat>, answered: nat, arrived: nat, sent: nat, now: bytes :|
        IsTurned(k.ids, order) && Flows(k, s, order, answered, arrived, sent, now);
      FlowLeaves(opener, seal, k, s, order, answered, arrived, sent, now);
    }
  }

  lemma StaleKeepsFlowing(opener: VectorHost.Opener, seal: Sealer, k: Scene, s: Session,
      order: seq<nat>, answered: nat, arrived: nat, sent: nat, now: bytes)
    requires SealsEach(opener, seal, k.keyId, k.commands) && IsTurned(k.ids, order)
    requires Flows(k, s, order, answered, arrived, sent, now) && |s.up| > sent - arrived
    ensures IsFlowing(k, Moved(opener, seal, s, Arrives))
  {
    StaleArrives(opener, seal, k, s, order, answered, sent, now);
  }

  lemma FreshKeepsFlowing(opener: VectorHost.Opener, seal: Sealer, k: Scene, s: Session,
      order: seq<nat>, answered: nat, arrived: nat, sent: nat, now: bytes)
    requires SealsEach(opener, seal, k.keyId, k.commands) && IsTurned(k.ids, order)
    requires Flows(k, s, order, answered, arrived, sent, now) && |s.up| == sent - arrived && s.up != []
    ensures IsFlowing(k, Moved(opener, seal, s, Arrives))
  {
    FreshArrives(opener, seal, k, s, order, answered, arrived, sent, now);
  }

  lemma FlowingArrives(opener: VectorHost.Opener, seal: Sealer, k: Scene)
    requires SealsEach(opener, seal, k.keyId, k.commands)
    ensures Leads(Moving(opener, seal), Arrives, Flowing(k), Flowing(k))
  {
    forall s | Flowing(k)(s) && s.up != []
      ensures IsFlowing(k, Moved(opener, seal, s, Arrives))
    {
      var order: seq<nat>, answered: nat, arrived: nat, sent: nat, now: bytes :|
        IsTurned(k.ids, order) && Flows(k, s, order, answered, arrived, sent, now);
      if |s.up| > sent - arrived {
        StaleKeepsFlowing(opener, seal, k, s, order, answered, arrived, sent, now);
      } else {
        FreshKeepsFlowing(opener, seal, k, s, order, answered, arrived, sent, now);
      }
    }
  }

  lemma HelloKeepsFlowing(opener: VectorHost.Opener, seal: Sealer, k: Scene, s: Session,
      order: seq<nat>, answered: nat, arrived: nat, sent: nat, now: bytes)
    requires IsTurned(k.ids, order)
    requires Flows(k, s, order, answered, arrived, sent, now) && |s.down| > arrived - answered
    ensures IsFlowing(k, Moved(opener, seal, s, Reaches))
  {
    HelloReaches(opener, seal, k, s, order, answered, arrived, sent, now);
  }

  lemma AnswerKeepsFlowing(opener: VectorHost.Opener, seal: Sealer, k: Scene, s: Session,
      order: seq<nat>, answered: nat, arrived: nat, sent: nat, now: bytes)
    requires IsTurned(k.ids, order)
    requires Flows(k, s, order, answered, arrived, sent, now) && |s.down| == arrived - answered && s.down != []
    ensures IsFlowing(k, Moved(opener, seal, s, Reaches))
  {
    AnswerReaches(opener, seal, k, s, order, answered, arrived, sent, now);
  }

  lemma FlowingReaches(opener: VectorHost.Opener, seal: Sealer, k: Scene)
    ensures Leads(Moving(opener, seal), Reaches, Flowing(k), Flowing(k))
  {
    forall s | Flowing(k)(s) && s.down != []
      ensures IsFlowing(k, Moved(opener, seal, s, Reaches))
    {
      var order: seq<nat>, answered: nat, arrived: nat, sent: nat, now: bytes :|
        IsTurned(k.ids, order) && Flows(k, s, order, answered, arrived, sent, now);
      if |s.down| > arrived - answered {
        HelloKeepsFlowing(opener, seal, k, s, order, answered, arrived, sent, now);
      } else {
        AnswerKeepsFlowing(opener, seal, k, s, order, answered, arrived, sent, now);
      }
    }
  }

  function Either(a: Session -> bool, b: Session -> bool): Session -> bool { (s: Session) => a(s) || b(s) }

  lemma EitherIsKept(move: Mover, early: Session -> bool, flowing: Session -> bool)
    requires Leads(move, Leaves, early, early) && Leads(move, Arrives, early, early)
    requires Leads(move, Reaches, early, flowing)
    requires forall m :: Leads(move, m, flowing, flowing)
    requires forall s, m :: !IsEffective(s, m) ==> move(s, m) == s
    ensures IsKept(move, Either(early, flowing))
  {
    var holds := Either(early, flowing);
    forall s, m | holds(s)
      ensures holds(move(s, m))
    {
      if IsEffective(s, m) {
        assert Leads(move, m, flowing, flowing);
        match m {
          case Leaves =>
          case Arrives =>
          case Reaches =>
        }
      }
    }
  }

  lemma IdleMove(opener: VectorHost.Opener, seal: Sealer, s: Session, m: Move)
    requires !IsEffective(s, m)
    ensures Moved(opener, seal, s, m) == s
  {
  }

  lemma WellIsKept(opener: VectorHost.Opener, seal: Sealer, k: Scene)
    requires SealsEach(opener, seal, k.keyId, k.commands) && IsScene(k)
    ensures IsKept(Moving(opener, seal), Either(Early(k), Flowing(k)))
  {
    var move, early, flowing := Moving(opener, seal), Early(k), Flowing(k);
    EarlyLeaves(opener, seal, k);
    EarlyArrives(opener, seal, k);
    EarlyReaches(opener, seal, k);
    forall m
      ensures Leads(move, m, flowing, flowing)
    {
      match m {
        case Leaves => FlowingLeaves(opener, seal, k);
        case Arrives => FlowingArrives(opener, seal, k);
        case Reaches => FlowingReaches(opener, seal, k);
      }
    }
    forall s, m | !IsEffective(s, m)
      ensures move(s, m) == s
    {
      IdleMove(opener, seal, s, m);
    }
    EitherIsKept(move, early, flowing);
  }

  /** The scene that a hello sets, and the session it starts. */
  function SceneOf(h: VectorHost.Host, c: Client, under: bytes): Scene {
    Scene(c.keyId, under, InFlight(c.flights, c.nextCallId), CommandsIn(c.flights), h.ran, c.settled)
  }

  function Told(h: VectorHost.Host, c: Client, under: bytes): Session {
    Session(h, HearChallenge(c, under), [], [])
  }

  lemma SameKeys(flights: map<nat, Flight>, ids: seq<nat>)
    requires forall id :: id in flights <==> id in ids
    ensures flights.Keys == IdSet(ids)
  {
  }

  lemma ToldWaits(c: Client, under: bytes, k: Scene)
    requires AllWait(c) && |under| == 32 && k.ids == InFlight(c.flights, c.nextCallId)
    requires k.keyId == c.keyId && k.under == under && k.commands == CommandsIn(c.flights) && k.settled == c.settled
    ensures IsScene(k) && PhoneWaits(k, HearChallenge(c, under), 0)
    ensures var told := HearChallenge(c, under); told.lastSent == c.lastSent && told.lastAccepted == c.lastAccepted
  {
    var told := HearChallenge(c, under);
    ToldInOrder(c, under);
    InFlightAre(c.flights, c.nextCallId);
    assert k.ids[0..] == k.ids && k.ids + [] == k.ids;
    SameKeys(c.flights, k.ids);
    SameKeys(told.flights, k.ids);
    InFlightByKeys(c.flights, told.flights, c.nextCallId);
  }

  lemma ToldCounts(h: VectorHost.Host, c: Client, under: bytes, left: nat)
    requires InRange(h, c, left)
    requires var told := HearChallenge(c, under); told.lastSent == c.lastSent && told.lastAccepted == c.lastAccepted
    ensures IsCounted(Told(h, c, under), c.keyId, left)
  {
  }

  lemma WaitsIsFlow(k: Scene, c: Client)
    requires PhoneWaits(k, c, 0)
    ensures PhoneFlows(k, c, k.ids, 0, 0, k.under)
  {
    InFlightAre(c.flights, c.nextCallId);
    assert k.ids[0..] == k.ids;
    forall i | 0 <= i < |k.ids|
      ensures k.ids[i] < c.nextCallId
    {
      assert k.ids[i] in InFlight(c.flights, c.nextCallId);
    }
    NoneYet(k, c, k.ids, k.under);
  }

  lemma StartsWell(h: VectorHost.Host, c: Client, under: bytes)
    requires AllWait(c) && CanAnswer(h, under) && InRange(h, c, 2 * |InFlight(c.flights, c.nextCallId)|)
    requires h.restarts <= 1
    ensures var k := SceneOf(h, c, under); IsScene(k) && Either(Early(k), Flowing(k))(Told(h, c, under))
  {
    var k, s := SceneOf(h, c, under), Told(h, c, under);
    ToldWaits(c, under, k);
    ToldCounts(h, c, under, 2 * |k.ids|);
    if VectorHost.Sends(h, under) == 1 {
      WaitsIsFlow(k, s.phone);
      FewerCount(s, k.keyId, 2 * |k.ids|, |k.ids|);
      StartsFlowing(k, s);
    } else {
      assert IsFirst(k, s, 0, 0, []);
    }
  }

  lemma StartsFlowing(k: Scene, s: Session)
    requires PhoneFlows(k, s.phone, k.ids, 0, 0, k.under) && s.up == [] && s.down == [] && s.host.ran == k.ran
    requires |k.under| == 32 && s.host.held == Some(k.under) && s.host.restarts <= 0
    requires IsCounted(s, k.keyId, |k.ids|)
    ensures IsFlowing(k, s)
  {
    assert k.ids[..0] == [] && k.ran + [] == k.ran;
    assert Turned(k.ids, 0) == k.ids;
    assert IsTurned(k.ids, k.ids);
    assert Flows(k, s, k.ids, 0, 0, 0, k.under);
  }

  lemma {:induction false} TellingWeighs(flights: map<nat, Flight>, n: nat)
    requires forall id :: id in flights ==> flights[id].stage == Queued && !flights[id].isResent
    ensures Weights(flights, n) == 3 * |InFlight(flights, n)|
  {
    if n > 0 {
      TellingWeighs(flights, n - 1);
    }
  }

  /** Of n calls told by one hello every schedule is over after 6n moves with something to do. */
  lemma TellingEnds(opener: VectorHost.Opener, seal: Sealer, h: VectorHost.Host, c: Client, under: bytes,
      moves: seq<Move>)
    requires AllWait(c) && |under| == 32 && AreEffective(Moving(opener, seal), Told(h, c, under), moves)
    ensures |moves| <= 6 * |InFlight(c.flights, c.nextCallId)|
  {
    var k, s := SceneOf(h, c, under), Told(h, c, under);
    ToldWaits(c, under, k);
    forall id | id in s.phone.flights
      ensures s.phone.flights[id].stage == Queued && !s.phone.flights[id].isResent
    {
      assert id in k.ids;
      var i :| 0 <= i < |k.ids| && k.ids[i] == id;
    }
    TellingWeighs(s.phone.flights, s.phone.nextCallId);
    SchedulesEnd(opener, seal, s, moves);
  }

  /** Each call ran once and was answered: in the order of the ids, from one of them on and then from the first. */
  ghost predicate AllServed(k: Scene, s: Session) {
    && s.phone.flights == map[] && s.phone.settled == k.settled + Done(k.ids)
    && exists order: seq<nat> :: IsTurned(k.ids, order) && HasRun(k, s.host, order)
  }

  ghost predicate HasRun(k: Scene, h: VectorHost.Host, order: seq<nat>) {
    (forall id :: id in order ==> id in k.commands) && h.ran == k.ran + CommandsOf(order, k.commands)
  }

  lemma FlowRests(k: Scene, s: Session, order: seq<nat>, answered: nat, arrived: nat, sent: nat, now: bytes)
    requires IsScene(k) && IsTurned(k.ids, order) && Flows(k, s, order, answered, arrived, sent, now) && AtRest(s)
    ensures AllServed(k, s)
  {
    TurnedIsDistinct(k, order);
    assert sent == arrived == answered == |order|;
    assert order[|order|..] == [] && order[..|order|] == order;
    assert s.phone.flights.Keys == {};
    assert Done(order) == Done(k.ids) by {
      assert forall id :: id in order <==> id in IdSet(order);
      assert forall id :: id in k.ids <==> id in IdSet(k.ids);
    }
    assert HasRun(k, s.host, order);
  }

  lemma TurnedIsDistinct(k: Scene, order: seq<nat>)
    requires IsScene(k) && IsTurned(k.ids, order)
    ensures Distinct(order) && |order| == |k.ids| && IdSet(order) == IdSet(k.ids)
  {
    var turn: nat :| turn <= |k.ids| && order == Turned(k.ids, turn);
    TurnedKeeps(k, turn);
  }

  lemma EarlyRests(k: Scene, s: Session, sent: nat, arrived: nat, next: bytes)
    requires IsScene(k) && IsFirst(k, s, sent, arrived, next) && AtRest(s)
    ensures AllServed(k, s)
  {
    assert sent == |k.ids| == 0;
    assert s.phone.flights.Keys == {};
    assert k.ids == [] == Turned(k.ids, 0) && IsTurned(k.ids, []);
    assert k.settled + Done([]) == k.settled && k.ran + [] == k.ran;
    assert HasRun(k, s.host, []);
  }

  lemma RestIsServed(k: Scene, s: Session)
    requires IsScene(k) && Either(Early(k), Flowing(k))(s) && AtRest(s)
    ensures AllServed(k, s)
  {
    if IsEarly(k, s) {
      var sent: nat, arrived: nat, next: bytes :| IsFirst(k, s, sent, arrived, next);
      EarlyRests(k, s, sent, arrived, next);
    } else {
      var order: seq<nat>, answered: nat, arrived: nat, sent: nat, now: bytes :|
        IsTurned(k.ids, order) && Flows(k, s, order, answered, arrived, sent, now);
      FlowRests(k, s, order, answered, arrived, sent, now);
    }
  }

  /** With at most one restart pending, every schedule that comes to rest has run and answered every call once. */
  lemma FewRestartsServeAll(opener: VectorHost.Opener, seal: Sealer, h: VectorHost.Host, c: Client, under: bytes,
      moves: seq<Move>)
    requires AllWait(c) && SealsEach(opener, seal, c.keyId, CommandsIn(c.flights)) && CanAnswer(h, under)
    requires InRange(h, c, 2 * |InFlight(c.flights, c.nextCallId)|) && h.restarts <= 1
    requires AtRest(After(Moving(opener, seal), Told(h, c, under), moves))
    ensures AllServed(SceneOf(h, c, under), After(Moving(opener, seal), Told(h, c, under), moves))
  {
    var k, s, move := SceneOf(h, c, under), Told(h, c, under), Moving(opener, seal);
    var well := Either(Early(k), Flowing(k));
    StartsWell(h, c, under);
    WellIsKept(opener, seal, k);
    KeptAfter(move, well, s, moves);
    RestIsServed(k, After(move, s, moves));
  }

  // ---------------------------------------------------- with more restarts than one

  function AllLeave(n: nat): seq<Move> { seq(n, _ => Leaves) }

  /**
   All calls leave before anything arrives; then the first is refused, hears it and
   leaves again, and whichever frame is next takes another restart.
   */
  function Overtaking(n: nat): seq<Move> { AllLeave(n) + [Arrives, Reaches, Leaves, Arrives, Reaches] }

  /** Calls that left before anything arrived. */
  ghost predicate IsAhead(k: Scene, s: Session, h: VectorHost.Host, sent: nat) {
    && PhoneWaits(k, s.phone, sent) && AreFirst(k, s.up, 0) && |s.up| == sent && s.down == [] && s.host == h
    && IsCounted(s, k.keyId, 2 * |k.ids| - sent)
  }

  lemma AheadLeaves(opener: VectorHost.Opener, seal: Sealer, k: Scene, s: Session, h: VectorHost.Host, sent: nat)
    requires IsAhead(k, s, h, sent) && sent < |k.ids|
    ensures IsAhead(k, Moved(opener, seal, s, Leaves), h, sent + 1)
  {
    var after, f, left := Moved(opener, seal, s, Leaves), SendNext(s.phone).1, 2 * |k.ids| - sent;
    OutsTail(k.ids, sent);
    PhoneWaitsOn(k, s.phone, sent);
    AheadGrows(k, s.up, sent, f.value);
    assert after == s.(phone := SendNext(s.phone).0, up := s.up + [f.value]);
    LeavingCounts(s, after, k.keyId, left, f.value);
    assert left - 1 == 2 * |k.ids| - (sent + 1);
  }

  lemma AheadGrows(k: Scene, up: seq<Frame>, sent: nat, f: Frame)
    requires AreFirst(k, up, 0) && |up| == sent < |k.ids| && IsCallOf(k, f, k.under, k.ids[sent])
    ensures AreFirst(k, up + [f], 0)
  {
    FirstGrows(k, up, 0, f);
  }

  ghost function Ahead(k: Scene, h: VectorHost.Host): (Session, nat) -> bool {
    (s: Session, sent: nat) => IsAhead(k, s, h, sent)
  }

  ghost predicate LeadsOn(move: Mover, ahead: (Session, nat) -> bool, n: nat) {
    forall s, i: nat {:trigger move(s, Leaves), ahead(s, i)} :: ahead(s, i) && i < n ==> ahead(move(s, Leaves), i + 1)
  }

  lemma {:induction false} LeaveOneByOne(move: Mover, ahead: (Session, nat) -> bool, s: Session, sent: nat, n: nat)
    requires LeadsOn(move, ahead, n) && ahead(s, sent) && sent <= n
    ensures ahead(After(move, s, AllLeave(n - sent)), n)
    decreases n - sent
  {
    if sent < n {
      LeaveOneByOne(move, ahead, move(s, Leaves), sent + 1, n);
      assert AllLeave(n - sent)[1..] == AllLeave(n - (sent + 1));
    }
  }

  lemma AheadLeadsOn(opener: VectorHost.Opener, seal: Sealer, k: Scene, h: VectorHost.Host)
    ensures LeadsOn(Moving(opener, seal), Ahead(k, h), |k.ids|)
  {
    var move, ahead := Moving(opener, seal), Ahead(k, h);
    forall s, i: nat | ahead(s, i) && i < |k.ids|
      ensures ahead(move(s, Leaves), i + 1)
    {
      assert IsAhead(k, s, h, i);
      AheadLeaves(opener, seal, k, s, h, i);
    }
  }

  lemma AllLeaveOnes(move: Mover, ahead: (Session, nat) -> bool, s: Session, n: nat)
    requires LeadsOn(move, ahead, n) && ahead(s, 0)
    ensures ahead(After(move, s, AllLeave(n)), n)
  {
    LeaveOneByOne(move, ahead, s, 0, n);
  }

  lemma AheadAllLeave(opener: VectorHost.Opener, seal: Sealer, k: Scene, s: Session, h: VectorHost.Host)
    requires IsAhead(k, s, h, 0)
    ensures Ahead(k, h)(After(Moving(opener, seal), s, AllLeave(|k.ids|)), |k.ids|)
  {
    AheadLeadsOn(opener, seal, k, h);
    AllLeaveOnes(Moving(opener, seal), Ahead(k, h), s, |k.ids|);
  }

  /** The first challenges of a host that has more than one restart to take. */
  ghost predicate HasTwoRestarts(h: VectorHost.Host, under: bytes, one: bytes, two: bytes) {
    && h.restarts > 1 && |h.draws| > 1 && h.draws[0] == one && h.draws[1] == two
    && |one| == 32 && |two| == 32 && one != two && one != under && (h.held.Some? ==> |h.held.value| == 32)
  }

  ghost predicate HasOneMore(h: VectorHost.Host, one: bytes, two: bytes) {
    h.restarts > 0 && h.held == Some(one) && |one| == 32 && h.draws != [] && h.draws[0] == two && |two| == 32
  }

  lemma RestartRefuses(h: VectorHost.Host, ctr: nat, c: bytes, id: nat, command: string)
    requires VectorHost.CanReply(h) && h.restarts > 0
    ensures var (after, e) := VectorHost.Reply(h, ctr, c, id, command);
            && IsHello(e, h.draws[0]) && e.ctr == h.ctr + 1 == after.ctr
            && after.lastAccepted == ctr && after.ran == h.ran
            && after.held == Some(h.draws[0]) && after.restarts == h.restarts - 1 && after.draws == h.draws[1..]
  {
  }

  /** The first restart is taken, its hello on the way. */
  ghost predicate IsRefused(k: Scene, s: Session, one: bytes, two: bytes) {
    && PhoneWaits(k, s.phone, |k.ids|) && AreFirst(k, s.up, 1) && |s.up| == |k.ids| - 1
    && HasOneMore(s.host, one, two) && s.host.ran == k.ran && one != k.under
    && |s.down| == 1 && IsHello(s.down[0], one) && IsCounted(s, k.keyId, |k.ids|)
  }

  lemma AheadArrives(opener: VectorHost.Opener, seal: Sealer, k: Scene, s: Session, h: VectorHost.Host,
      one: bytes, two: bytes)
    requires SealsEach(opener, seal, k.keyId, k.commands) && |k.under| == 32 && k.ids != []
    requires IsAhead(k, s, h, |k.ids|) && HasTwoRestarts(h, k.under, one, two) && h.ran == k.ran
    ensures IsRefused(k, Moved(opener, seal, s, Arrives), one, two)
  {
    FirstShrinks(k, s.up, 0);
    var ctr, id, after := s.up[0].ctr, k.ids[0], Moved(opener, seal, s, Arrives);
    NextArrives(s, k.keyId, |k.ids|);
    CallArrives(opener, seal, k, s, k.under, id);
    RestartRefuses(h, ctr, k.under, id, k.commands[id]);
    ArrivingCounts(s, after, k.keyId, |k.ids|, VectorHost.Reply(h, ctr, k.under, id, k.commands[id]).1);
  }

  ghost predicate AreResent(c: Client) { forall id :: id in c.flights ==> c.flights[id].isResent }

  /** All calls queued again, and known to be. */
  ghost predicate IsRequeued(k: Scene, s: Session, one: bytes, two: bytes) {
    && PhoneFlows(k, s.phone, k.ids, 0, 0, one) && s.down == [] && |s.up| == |k.ids| - 1 && AreFirst(k, s.up, 1)
    && AreResent(s.phone)
    && HasOneMore(s.host, one, two) && s.host.ran == k.ran && IsCounted(s, k.keyId, |k.ids|)
  }

  lemma AllResent(k: Scene, c: Client, one: bytes)
    requires IsScene(k) && PhoneWaits(k, c, |k.ids|) && one != k.under
    ensures AreResent(HearChallenge(c, one))
  {
    PhoneRequeues(k, c, |k.ids|, one);
    InFlightAre(c.flights, c.nextCallId);
    forall id | id in c.flights
      ensures id < c.nextCallId && c.flights[id].stage == Sent(k.under)
    {
      assert id in k.ids;
      var i :| 0 <= i < |k.ids| && k.ids[i] == id;
    }
  }

  lemma RefusalReaches(opener: VectorHost.Opener, seal: Sealer, k: Scene, s: Session, one: bytes, two: bytes)
    requires IsScene(k) && IsRefused(k, s, one, two)
    ensures IsRequeued(k, Moved(opener, seal, s, Reaches), one, two)
  {
    var c, e, after := s.phone, s.down[0], Moved(opener, seal, s, Reaches);
    var accepted := c.(lastAccepted := c.lastAccepted[c.keyId := e.ctr]);
    HearsPush(c, e);
    assert PhoneWaits(k, accepted, |k.ids|);
    assert after == s.(phone := HearChallenge(accepted, one), down := s.down[1..]);
    PhoneTurns(k, accepted, |k.ids|, one);
    AllResent(k, accepted, one);
    assert Turned(k.ids, |k.ids|) == k.ids;
    ReachingCounts(s, after, k.keyId, |k.ids|);
  }

  ghost predicate IsSomeCall(k: Scene, f: Frame) { exists c: bytes, id: nat :: |c| == 32 && IsCallOf(k, f, c, id) }

  lemma HeadIsSomeCall(k: Scene, up: seq<Frame>, f: Frame, c: bytes, id: nat)
    requires AreFirst(k, up, 1) && |k.under| == 32 && |c| == 32 && IsCallOf(k, f, c, id)
    ensures IsSomeCall(k, (up + [f])[0])
  {
    if up != [] {
      FirstShrinks(k, up, 1);
    }
  }

  /** The first call sent again, under the hello's challenge. */
  ghost predicate IsResentFirst(k: Scene, s: Session, one: bytes, two: bytes) {
    && k.ids != [] && PhoneFlows(k, s.phone, k.ids, 0, 1, one) && s.down == [] && s.up != []
    && IsSomeCall(k, s.up[0])
    && AreResent(s.phone)
    && HasOneMore(s.host, one, two) && s.host.ran == k.ran && IsCounted(s, k.keyId, |k.ids| - 1)
  }

  lemma StillResent(c: Client)
    requires AreResent(c)
    ensures AreResent(SendNext(c).0)
  {
  }

  lemma FirstOfAllLeaves(k: Scene, c: Client, one: bytes)
    requires PhoneFlows(k, c, k.ids, 0, 0, one) && k.ids != [] && AreResent(c)
    requires Last(c.lastSent, c.keyId) + 1 < COUNTER_LIMIT
    ensures var (after, frame) := SendNext(c);
            && PhoneFlows(k, after, k.ids, 0, 1, one) && AreResent(after)
            && frame.Some? && IsCallOf(k, frame.value, one, k.ids[0])
            && frame.value.ctr == Last(c.lastSent, k.keyId) + 1 == Last(after.lastSent, k.keyId)
            && after.lastAccepted == c.lastAccepted
  {
    OutsTail(k.ids, 0);
    PhoneFlowsOn(k, c, k.ids, 0, 0, one);
    StillResent(c);
  }

  lemma RequeuedLeavesAgain(opener: VectorHost.Opener, seal: Sealer, k: Scene, s: Session, one: bytes, two: bytes)
    requires |k.under| == 32 && IsRequeued(k, s, one, two) && k.ids != []
    ensures IsResentFirst(k, Moved(opener, seal, s, Leaves), one, two)
  {
    var after, f := Moved(opener, seal, s, Leaves), SendNext(s.phone).1;
    FirstOfAllLeaves(k, s.phone, one);
    assert after == s.(phone := SendNext(s.phone).0, up := s.up + [f.value]);
    LeavingCounts(s, after, k.keyId, |k.ids|, f.value);
    HeadIsSomeCall(k, s.up, f.value, one, k.ids[0]);
  }

  /** Another challenge on its way to the call that was sent again. */
  ghost predicate IsOvertaken(k: Scene, s: Session, one: bytes, two: bytes) {
    && k.ids != [] && PhoneFlows(k, s.phone, k.ids, 0, 1, one) && |s.down| == 1 && IsHello(s.down[0], two)
    && AreResent(s.phone)
    && s.host.ran == k.ran && IsCounted(s, k.keyId, |k.ids| - 1)
  }

  lemma ResentArrives(opener: VectorHost.Opener, seal: Sealer, k: Scene, s: Session, one: bytes, two: bytes)
    requires SealsEach(opener, seal, k.keyId, k.commands) && IsResentFirst(k, s, one, two)
    ensures IsOvertaken(k, Moved(opener, seal, s, Arrives), one, two)
  {
    var c: bytes, id: nat :| |c| == 32 && IsCallOf(k, s.up[0], c, id);
    var ctr, after := s.up[0].ctr, Moved(opener, seal, s, Arrives);
    NextArrives(s, k.keyId, |k.ids| - 1);
    CallArrives(opener, seal, k, s, c, id);
    RestartRefuses(s.host, ctr, c, id, k.commands[id]);
    ArrivingCounts(s, after, k.keyId, |k.ids| - 1, VectorHost.Reply(s.host, ctr, c, id, k.commands[id]).1);
  }

  /** A call given up as refused. */
  predicate IsGivenUp(c: Client, id: nat) {
    id !in c.flights && id in c.settled && c.settled[id] == ChallengeRefused
  }

  lemma OvertakenReaches(opener: VectorHost.Opener, seal: Sealer, k: Scene, s: Session, one: bytes, two: bytes)
    requires IsOvertaken(k, s, one, two) && one != two
    ensures var after := Moved(opener, seal, s, Reaches);
            IsGivenUp(after.phone, k.ids[0]) && after.host.ran == k.ran
  {
    var c, e, id := s.phone, s.down[0], k.ids[0];
    assert e == VectorHost.Pushed(e.ctr, VectorHost.Hello, Some(two));
    forall other | other in c.flights && other != id
      ensures c.flights[other].stage == Queued
    {
      assert other in k.ids[0..];
      var i :| 0 <= i < |k.ids| && k.ids[i] == other;
    }
    HearsRefusal(c, e.ctr, id, k.commands[id], one, true, two);
  }

  function GivingUp(id: nat): Session -> bool { (s: Session) => IsGivenUp(s.phone, id) }

  lemma TellKeepsEnd(c: Client, told: nat, news: bytes, id: nat)
    requires IsGivenUp(c, id)
    ensures IsGivenUp(Tell(c, told, news), id)
  {
  }

  lemma {:induction false} TellingKeepsEnd(news: bytes, c: Client, n: nat, id: nat)
    requires IsGivenUp(c, id)
    ensures IsGivenUp(TellUpTo(Telling(news), c, n), id)
  {
    if n > 0 {
      TellingKeepsEnd(news, c, n - 1, id);
      TellKeepsEnd(TellUpTo(Telling(news), c, n - 1), n - 1, news, id);
    }
  }

  lemma HearKeepsEnd(c: Client, e: Push, id: nat)
    requires IsGivenUp(c, id)
    ensures IsGivenUp(Hear(c, e), id)
  {
    if e.Pushed? && e.plaintext == VectorHost.Hello && e.shown.Some? {
      var accepted := c.(lastAccepted := c.lastAccepted[c.keyId := e.ctr]);
      TellingKeepsEnd(e.shown.value, accepted.(challenge := e.shown), c.nextCallId, id);
    }
  }

  lemma SendKeepsEnd(c: Client, id: nat)
    requires IsGivenUp(c, id)
    ensures IsGivenUp(SendNext(c).0, id)
  {
  }

  /** A call given up stays so. */
  lemma EndIsKept(opener: VectorHost.Opener, seal: Sealer, id: nat)
    ensures IsKept(Moving(opener, seal), GivingUp(id))
  {
    forall s, m | GivingUp(id)(s)
      ensures IsGivenUp(Moved(opener, seal, s, m).phone, id)
    {
      match m {
        case Leaves => SendKeepsEnd(s.phone, id);
        case Arrives =>
        case Reaches =>
          if s.down != [] {
            HearKeepsEnd(s.phone, s.down[0], id);
          }
      }
    }
  }

  lemma FiveMoves(move: Mover, s: Session, s1: Session, s2: Session, s3: Session, s4: Session, s5: Session)
    requires s1 == move(s, Arrives) && s2 == move(s1, Reaches) && s3 == move(s2, Leaves)
    requires s4 == move(s3, Arrives) && s5 == move(s4, Reaches)
    ensures After(move, s, [Arrives, Reaches, Leaves, Arrives, Reaches]) == s5
  {
    assert After(move, s4, [Reaches]) == s5;
    assert [Arrives, Reaches][1..] == [Reaches] && After(move, s3, [Arrives, Reaches]) == s5;
    assert [Leaves, Arrives, Reaches][1..] == [Arrives, Reaches] && After(move, s2, [Leaves, Arrives, Reaches]) == s5;
    assert [Reaches, Leaves, Arrives, Reaches][1..] == [Leaves, Arrives, Reaches];
    assert After(move, s1, [Reaches, Leaves, Arrives, Reaches]) == s5;
    assert [Arrives, Reaches, Leaves, Arrives, Reaches][1..] == [Reaches, Leaves, Arrives, Reaches];
  }

  lemma AheadIsOvertaken(opener: VectorHost.Opener, seal: Sealer, k: Scene, s: Session, h: VectorHost.Host,
      one: bytes, two: bytes)
    requires SealsEach(opener, seal, k.keyId, k.commands) && IsScene(k) && k.ids != []
    requires IsAhead(k, s, h, |k.ids|) && HasTwoRestarts(h, k.under, one, two) && h.ran == k.ran
    ensures var end := After(Moving(opener, seal), s, [Arrives, Reaches, Leaves, Arrives, Reaches]);
            IsGivenUp(end.phone, k.ids[0]) && end.host.ran == k.ran
  {
    var s1 := Moved(opener, seal, s, Arrives);
    AheadArrives(opener, seal, k, s, h, one, two);
    var s2 := Moved(opener, seal, s1, Reaches);
    RefusalReaches(opener, seal, k, s1, one, two);
    var s3 := Moved(opener, seal, s2, Leaves);
    RequeuedLeavesAgain(opener, seal, k, s2, one, two);
    var s4 := Moved(opener, seal, s3, Arrives);
    ResentArrives(opener, seal, k, s3, one, two);
    var s5 := Moved(opener, seal, s4, Reaches);
    OvertakenReaches(opener, seal, k, s4, one, two);
    FiveMoves(Moving(opener, seal), s, s1, s2, s3, s4, s5);
  }

  lemma DrawsTwo(h: VectorHost.Host, under: bytes)
    requires CanAnswer(h, under) && h.restarts > 1
    ensures |h.draws| > 1 && HasTwoRestarts(h, under, h.draws[0], h.draws[1])
  {
  }

  /**
   More restarts than one, and calls sent without waiting for replies: the first call is
   refused twice and given up, and nothing has run by then.
   */
  lemma OvertakingRefuses(opener: VectorHost.Opener, seal: Sealer, h: VectorHost.Host, c: Client, under: bytes)
    requires AllWait(c) && SealsEach(opener, seal, c.keyId, CommandsIn(c.flights)) && CanAnswer(h, under)
    requires InRange(h, c, 2 * |InFlight(c.flights, c.nextCallId)|) && h.restarts > 1
    requires InFlight(c.flights, c.nextCallId) != []
    ensures var ids := InFlight(c.flights, c.nextCallId);
            var end := After(Moving(opener, seal), Told(h, c, under), Overtaking(|ids|));
            IsGivenUp(end.phone, ids[0]) && end.host.ran == h.ran
  {
    var k, s, move := SceneOf(h, c, under), Told(h, c, under), Moving(opener, seal);
    ToldWaits(c, under, k);
    ToldCounts(h, c, under, 2 * |k.ids|);
    assert IsAhead(k, s, h, 0);
    AheadAllLeave(opener, seal, k, s, h);
    DrawsTwo(h, under);
    var gone, rest := AllLeave(|k.ids|), [Arrives, Reaches, Leaves, Arrives, Reaches];
    AheadIsOvertaken(opener, seal, k, After(move, s, gone), h, h.draws[0], h.draws[1]);
    AfterBoth(move, s, gone, rest);
  }

  /** The calls of a session told by one hello are served over a schedule, if it comes to rest. */
  ghost predicate ServesAtRest(move: Mover, k: Scene, s: Session, moves: seq<Move>) {
    AtRest(After(move, s, moves)) ==> AllServed(k, After(move, s, moves))
  }

  lemma SomeScheduleRefuses(opener: VectorHost.Opener, seal: Sealer, h: VectorHost.Host, c: Client, under: bytes)
    returns (moves: seq<Move>)
    requires AllWait(c) && SealsEach(opener, seal, c.keyId, CommandsIn(c.flights)) && CanAnswer(h, under)
    requires InRange(h, c, 2 * |InFlight(c.flights, c.nextCallId)|) && h.restarts > 1
    requires InFlight(c.flights, c.nextCallId) != []
    ensures !ServesAtRest(Moving(opener, seal), SceneOf(h, c, under), Told(h, c, under), moves)
  {
    var k, s, move := SceneOf(h, c, under), Told(h, c, under), Moving(opener, seal);
    var first, id := Overtaking(|k.ids|), k.ids[0];
    OvertakingRefuses(opener, seal, h, c, under);
    var rest := ComesToRest(opener, seal, After(move, s, first));
    moves := first + rest;
    AfterBoth(move, s, first, rest);
    EndIsKept(opener, seal, id);
    KeptAfter(move, GivingUp(id), After(move, s, first), rest);
    GivenUpIsNotServed(k, After(move, s, moves), id);
  }

  lemma GivenUpIsNotServed(k: Scene, s: Session, id: nat)
    requires id in k.ids && IsGivenUp(s.phone, id)
    ensures !AllServed(k, s)
  {
    assert id in Done(k.ids);
  }

  /**
   Calls told by one hello, with frames on the way in both directions at once: every
   schedule that comes to rest has run and answered each of them once exactly when at
   most one restart is pending.
   */
  lemma PipelinedCalls(opener: VectorHost.Opener, seal: Sealer, h: VectorHost.Host, c: Client, under: bytes)
    requires AllWait(c) && SealsEach(opener, seal, c.keyId, CommandsIn(c.flights)) && CanAnswer(h, under)
    requires InRange(h, c, 2 * |InFlight(c.flights, c.nextCallId)|) && InFlight(c.flights, c.nextCallId) != []
    ensures (forall moves :: ServesAtRest(Moving(opener, seal), SceneOf(h, c, under), Told(h, c, under), moves))
            <==> h.restarts <= 1
  {
    var k, s, move := SceneOf(h, c, under), Told(h, c, under), Moving(opener, seal);
    if h.restarts <= 1 {
      forall moves
        ensures ServesAtRest(move, k, s, moves)
      {
        if AtRest(After(move, s, moves)) {
          FewRestartsServeAll(opener, seal, h, c, under, moves);
        }
      }
    } else {
      var moves := SomeScheduleRefuses(opener, seal, h, c, under);
    }
  }

  // ------------------------------------------------------------------- an instance

  /** A frame that shows its call by the length of its ciphertext. */
  function Plainly(f: Frame): VectorHost.Wire {
    var shown := if f.CallFrame? then Some(Some(f.under)) else None;
    var id := if f.CallFrame? then f.id else 0;
    VectorHost.Wire(2, false, false, f.keyId % TWO_32, f.ctr, shown, Some(seq(id, _ => 0)), Some([]))
  }

  function PlainlyOpened(commands: map<nat, string>): VectorHost.Opener {
    (header: VectorHost.SealedHeader, ct: bytes, sig: bytes) =>
      if |ct| in commands then Some(VectorHost.Call(|ct|, commands[|ct|])) else None
  }

  lemma PlainlyIsCall(keyId: nat, commands: map<nat, string>, id: nat, ctr: nat, c: bytes)
    requires id in commands
    ensures VectorHost.IsCall(PlainlyOpened(commands), Plainly(CallFrame(keyId, ctr, c, id, commands[id])), ctr, c,
              id, commands[id])
  {
    var w := Plainly(CallFrame(keyId, ctr, c, id, commands[id]));
    assert |w.ct.value| == id && w.challenge == Some(Some(c));
    assert PlainlyOpened(commands)(VectorHost.SealedHeader(w.keyId, ctr, Some(c)), w.ct.value, w.sig.value)
        == Some(VectorHost.Call(id, commands[id]));
  }

  /** What is asked of sealing and opening can be had for any calls. */
  lemma PlainlySeals(keyId: nat, commands: map<nat, string>)
    ensures SealsEach(PlainlyOpened(commands), Plainly, keyId, commands)
  {
    forall id | id in commands
      ensures VectorHost.SealsCall(PlainlyOpened(commands), ClientOf(Plainly, keyId, id, commands[id]), id, commands[id])
    {
      var client := ClientOf(Plainly, keyId, id, commands[id]);
      forall ctr: nat, c: bytes | ctr < COUNTER_LIMIT && |c| == 32
        ensures VectorHost.IsCall(PlainlyOpened(commands), client(ctr, c), ctr, c, id, commands[id])
      {
        PlainlyIsCall(keyId, commands, id, ctr, c);
      }
    }
  }

  function Bytes(b: byte): bytes { seq(32, _ => b) }

  /** A host with two restarts pending, and a phone that made two calls. */
  function TwoRestarts(): VectorHost.Host {
    VectorHost.Host([Bytes(1), Bytes(2)], Some(Bytes(0)), 2, false, 0, 0, [])
  }

  function TwoCalls(): Client {
    var call := Flight("call", AwaitingChallenge, false);
    Client(true, 1, None, map[0 := call, 1 := call], 2, [], map[], map[], map[])
  }

  /** Two calls, two restarts: sent without waiting, the first one is given up and nothing has run. */
  lemma TwoCallsTwoRestarts()
    ensures var commands := map[0 := "call", 1 := "call"];
            var end := After(Moving(PlainlyOpened(commands), Plainly), Told(TwoRestarts(), TwoCalls(), Bytes(0)),
              Overtaking(2));
            IsGivenUp(end.phone, 0) && end.host.ran == []
  {
    var h, c, commands := TwoRestarts(), TwoCalls(), map[0 := "call", 1 := "call"];
    assert CommandsIn(c.flights) == commands;
    assert InFlight(c.flights, 2) == [0, 1] by {
      assert InFlight(c.flights, 0) == [] && InFlight(c.flights, 1) == [0];
    }
    FreshBytes();
    PlainlySeals(1, commands);
    OvertakingRefuses(PlainlyOpened(commands), Plainly, h, c, Bytes(0));
  }

  lemma FreshBytes()
    ensures CanAnswer(TwoRestarts(), Bytes(0))
  {
    assert Bytes(0)[0] == 0 && Bytes(1)[0] == 1 && Bytes(2)[0] == 2;
  }
}
