/**
 What a phone tells of its calls is true: over every schedule of sends, arrivals and
 hearings, with calls made, deadlines passing and restarts of the host at any time, a
 call that was answered ran once and one that was refused never ran.
 */
module AtMostOnce {
  import opened Common
  import opened RelayCrypto
  import opened RelayConnection
  import opened Transit
  import VectorHost

  /** A move of a frame, the next call made, a deadline, restarts to come, or the host's answer to the hello. */
  datatype Happening = Goes(move: Move) | Asks | Expires(id: nat) | Restarts(calls: int) | Greets

  /** The calls ever made, by id. */
  type Plan = map<nat, string>

  /** What the host did on its own, and its pushes on their way. */
  function Greeted(s: Session, e: VectorHost.Effect): Session {
    s.(host := e.host, down := s.down + VectorHost.Pushes(e.entries))
  }

  function Happened(opener: VectorHost.Opener, seal: Sealer, plan: Plan, s: Session, e: Happening): Session {
    match e
    case Goes(m) => Moved(opener, seal, s, m)
    case Asks =>
      if s.phone.nextCallId in plan then s.(phone := Begin(s.phone, plan[s.phone.nextCallId]).0) else s
    case Expires(id) => s.(phone := Settle(s.phone, id, TimedOut))
    case Restarts(calls) => s.(host := s.host.(restarts := calls))
    case Greets => Greeted(s, VectorHost.Step(opener, s.host, VectorHost.Event.AnswerTheHello))
  }

  function Happens(opener: VectorHost.Opener, seal: Sealer, plan: Plan): (Session, Happening) -> Session {
    (s: Session, e: Happening) => Happened(opener, seal, plan, s, e)
  }

  /** What happens is a move, or a step of one end on its own. */
  lemma HappensAsSteps(opener: VectorHost.Opener, seal: Sealer, plan: Plan, s: Session, m: Move, id: nat, calls: int)
    ensures Happened(opener, seal, plan, s, Goes(m)) == Moved(opener, seal, s, m)
    ensures Happened(opener, seal, plan, s, Asks)
         == if s.phone.nextCallId in plan then s.(phone := Step(s.phone, Calls(plan[s.phone.nextCallId])).0) else s
    ensures Happened(opener, seal, plan, s, Expires(id)) == s.(phone := Step(s.phone, RunsOut(id)).0)
    ensures Happened(opener, seal, plan, s, Restarts(calls))
         == s.(host := VectorHost.Step(opener, s.host, VectorHost.Event.Restarts(calls)).host)
    ensures var e := VectorHost.Step(opener, s.host, VectorHost.Event.AnswerTheHello);
            Happened(opener, seal, plan, s, Happening.Greets)
            == s.(host := e.host, down := s.down + Only(e.entries, (entry: Push) => entry.Pushed?))
  {
    VectorHost.PushesAre(VectorHost.Step(opener, s.host, VectorHost.Event.AnswerTheHello).entries);
  }

  // ------------------------------------------------------------------ what is known

  /** How new each challenge is: the later it was installed, the higher. */
  type Ranks = map<bytes, nat>

  function Level(ranks: Ranks, c: Option<bytes>): nat { if c.Some? && c.value in ranks then ranks[c.value] else 0 }

  ghost predicate AreRanks(ranks: Ranks, top: nat, h: VectorHost.Host) {
    && (forall c :: c in ranks ==> 1 <= ranks[c] <= top)
    && (forall c, d :: c in ranks && d in ranks && ranks[c] == ranks[d] ==> c == d)
    && Distinct(h.draws) && (forall d :: d in h.draws ==> d !in ranks)
    && (h.held.Some? ==> h.held.value in ranks && ranks[h.held.value] == top)
  }

  /** The phone holds a challenge that is ranked, and has sent calls under none above it. */
  ghost predicate PhoneIsBehind(plan: Plan, ranks: Ranks, c: Client) {
    && (c.challenge.Some? ==> c.challenge.value in ranks && |c.challenge.value| == 32)
    && (forall o :: o in c.outbox ==> o.Call?)
    && (forall id :: id in c.flights ==>
          && id < c.nextCallId && id in plan && c.flights[id].command == plan[id]
          && (c.flights[id].stage.Sent? ==>
                c.flights[id].stage.under in ranks && ranks[c.flights[id].stage.under] <= Level(ranks, c.challenge)))
    && (forall id :: id in c.settled ==> id !in c.flights && id < c.nextCallId)
  }

  /** A frame of a call: under a challenge none above the one its call was last sent under. */
  ghost predicate IsCarried(plan: Plan, ranks: Ranks, c: Client, f: Frame) {
    && f.CallFrame? && f.keyId == c.keyId && f.id < c.nextCallId && f.id in plan && f.command == plan[f.id]
    && f.ctr < COUNTER_LIMIT && |f.under| == 32 && f.under in ranks && ranks[f.under] <= Level(ranks, c.challenge)
    && (f.id in c.flights ==>
          if c.flights[f.id].stage.Sent? then
            c.flights[f.id].stage.under in ranks && ranks[f.under] <= ranks[c.flights[f.id].stage.under]
          else ranks[f.under] < Level(ranks, c.challenge))
  }

  ghost predicate UpIsBehind(plan: Plan, ranks: Ranks, top: nat, done: seq<nat>, c: Client, up: seq<Frame>) {
    && (forall i :: 0 <= i < |up| ==> IsCarried(plan, ranks, c, up[i]) && up[i].id !in done)
    && (forall i :: 0 <= i < |up| && up[i].id in c.settled && c.settled[up[i].id] == ChallengeRefused
          ==> ranks[up[i].under] < top)
    && (forall i, j :: 0 <= i < j < |up| && up[i].id == up[j].id ==> ranks[up[i].under] < ranks[up[j].under])
  }

  /** A push: a hello under a ranked challenge, or the answer of a call that ran. */
  predicate IsTold(ranks: Ranks, done: seq<nat>, e: Push) {
    && e.Pushed?
    && match e.plaintext
       case Hello => e.shown.Some? && |e.shown.value| == 32 && e.shown.value in ranks
       case Answer(id, _) => id >= 0 && id in done
       case _ => false
  }

  /** Hellos show challenges that never get older, and none older than the phone's. */
  ghost predicate DownIsAhead(ranks: Ranks, done: seq<nat>, level: nat, heard: nat, h: VectorHost.Host,
      down: seq<Push>)
  {
    && (forall i :: 0 <= i < |down| ==>
          && IsTold(ranks, done, down[i]) && heard < down[i].ctr <= h.ctr
          && (down[i].plaintext.Hello? ==> level <= ranks[down[i].shown.value]))
    && (forall i, j :: 0 <= i < j < |down| ==> down[i].ctr < down[j].ctr)
    && (forall i, j :: 0 <= i < j < |down| && down[i].plaintext.Hello? && down[j].plaintext.Hello?
          ==> ranks[down[i].shown.value] <= ranks[down[j].shown.value])
    && heard <= h.ctr
  }

  function LevelOf(ranks: Ranks, c: Client): nat { Level(ranks, c.challenge) }

  function HeardOf(c: Client): nat { Last(c.lastAccepted, c.keyId) }

  /** The phone hears the answer of a call before anything that would make it send the call again. */
  ghost predicate IsAnswered(h: VectorHost.Host, down: seq<Push>, id: nat, under: bytes) {
    exists q: nat :: IsAnsweredAt(h, down, id, under, q)
  }

  ghost predicate IsAnsweredAt(h: VectorHost.Host, down: seq<Push>, id: nat, under: bytes, q: nat) {
    && q <= |down| && (if q < |down| then IsAnswer(down[q], id) else h.ctr + 1 >= COUNTER_LIMIT)
    && forall i :: 0 <= i < q && down[i].Pushed? && down[i].plaintext.Hello? ==> down[i].shown == Some(under)
  }

  /** The calls that ran, each once; what the phone has said of calls is true of them. */
  ghost predicate IsTrue(plan: Plan, ran: seq<string>, done: seq<nat>, c: Client, h: VectorHost.Host) {
    && Distinct(done) && (forall id :: id in done ==> id in plan && id < c.nextCallId)
    && h.ran == ran + CommandsOf(done, plan)
    && forall id :: id in c.settled ==>
         && (c.settled[id] == Answered ==> id in done) && (c.settled[id] == ChallengeRefused ==> id !in done)
  }

  ghost predicate AreAnswered(done: seq<nat>, c: Client, h: VectorHost.Host, down: seq<Push>) {
    forall id :: id in done && id in c.flights ==>
      c.flights[id].stage.Sent? && IsAnswered(h, down, id, c.flights[id].stage.under)
  }

  ghost predicate Holds(plan: Plan, keyId: nat, ran: seq<string>, s: Session, ranks: Ranks, top: nat, done: seq<nat>) {
    && s.phone.keyId == keyId
    && AreRanks(ranks, top, s.host)
    && PhoneIsBehind(plan, ranks, s.phone)
    && UpIsBehind(plan, ranks, top, done, s.phone, s.up)
    && DownIsAhead(ranks, done, LevelOf(ranks, s.phone), HeardOf(s.phone), s.host, s.down)
    && AreAnswered(done, s.phone, s.host, s.down)
    && IsTrue(plan, ran, done, s.phone, s.host)
  }

  // ---------------------------------------------------------------- the phone's steps

  lemma SettleKeepsUp(plan: Plan, ranks: Ranks, top: nat, done: seq<nat>, c: Client, up: seq<Frame>,
      id: nat, s: Settlement)
    requires UpIsBehind(plan, ranks, top, done, c, up) && s != ChallengeRefused
    ensures UpIsBehind(plan, ranks, top, done, Settle(c, id, s), up)
  {
    var after := Settle(c, id, s);
    forall i | 0 <= i < |up|
      ensures IsCarried(plan, ranks, after, up[i])
    {
      assert IsCarried(plan, ranks, c, up[i]);
    }
  }

  lemma SettleKeepsPhone(plan: Plan, ranks: Ranks, c: Client, id: nat, s: Settlement)
    requires PhoneIsBehind(plan, ranks, c)
    ensures PhoneIsBehind(plan, ranks, Settle(c, id, s))
  {
  }

  lemma SettleKeepsTrue(plan: Plan, ran: seq<string>, done: seq<nat>, c: Client, h: VectorHost.Host, down: seq<Push>,
      id: nat, s: Settlement)
    requires IsTrue(plan, ran, done, c, h) && AreAnswered(done, c, h, down)
    requires s != ChallengeRefused && (s == Answered ==> id in done)
    ensures IsTrue(plan, ran, done, Settle(c, id, s), h) && AreAnswered(done, Settle(c, id, s), h, down)
  {
  }

  lemma Settles(plan: Plan, keyId: nat, ran: seq<string>, s: Session, ranks: Ranks, top: nat, done: seq<nat>,
      id: nat, how: Settlement)
    requires Holds(plan, keyId, ran, s, ranks, top, done)
    requires how != ChallengeRefused && (how == Answered ==> id in done)
    ensures Holds(plan, keyId, ran, s.(phone := Settle(s.phone, id, how)), ranks, top, done)
  {
    SettleKeepsUp(plan, ranks, top, done, s.phone, s.up, id, how);
    SettleKeepsPhone(plan, ranks, s.phone, id, how);
    SettleKeepsTrue(plan, ran, done, s.phone, s.host, s.down, id, how);
  }

  /** The next call is one of the plan, and new. */
  lemma AsksKeeps(plan: Plan, keyId: nat, ran: seq<string>, s: Session, ranks: Ranks, top: nat, done: seq<nat>)
    requires Holds(plan, keyId, ran, s, ranks, top, done) && s.phone.nextCallId in plan
    ensures Holds(plan, keyId, ran, s.(phone := Begin(s.phone, plan[s.phone.nextCallId]).0), ranks, top, done)
  {
    var c, after := s.phone, Begin(s.phone, plan[s.phone.nextCallId]).0;
    AskedPhone(plan, ranks, c);
    AskedUp(plan, ranks, top, done, c, s.up);
  }

  lemma AskedPhone(plan: Plan, ranks: Ranks, c: Client)
    requires PhoneIsBehind(plan, ranks, c) && c.nextCallId in plan
    ensures PhoneIsBehind(plan, ranks, Begin(c, plan[c.nextCallId]).0)
  {
  }

  lemma AskedUp(plan: Plan, ranks: Ranks, top: nat, done: seq<nat>, c: Client, up: seq<Frame>)
    requires UpIsBehind(plan, ranks, top, done, c, up) && c.nextCallId in plan
    ensures UpIsBehind(plan, ranks, top, done, Begin(c, plan[c.nextCallId]).0, up)
  {
    var after := Begin(c, plan[c.nextCallId]).0;
    forall i | 0 <= i < |up|
      ensures IsCarried(plan, ranks, after, up[i])
    {
      assert IsCarried(plan, ranks, c, up[i]);
    }
  }

  // Sending.

  /** What sending does to a call of the outbox: a counter is spent, and it leaves, fails, or is passed over. */
  lemma SendsCall(plan: Plan, ranks: Ranks, c: Client)
    requires PhoneIsBehind(plan, ranks, c) && c.outbox != []
    ensures var (after, frame) := SendNext(c);
            var rest := c.(outbox := c.outbox[1..]);
            var id := c.outbox[0].id;
            && c.outbox[0].Call?
            && (frame.None? ==>
                  after == Settle(rest, id, CounterUnreadable) || after == rest.(lastSent := after.lastSent))
            && (frame.Some? ==>
                  && id in c.flights && c.flights[id].stage == Queued && c.challenge.Some?
                  && after == rest.(lastSent := after.lastSent,
                                    flights := c.flights[id := c.flights[id].(stage := Sent(c.challenge.value))])
                  && frame.value.CallFrame? && frame.value.ctr < COUNTER_LIMIT
                  && frame.value == CallFrame(c.keyId, frame.value.ctr, c.challenge.value, id, c.flights[id].command))
  {
    assert c.outbox[0] in c.outbox;
  }

  lemma SentPhone(plan: Plan, ranks: Ranks, c: Client, after: Client, id: nat)
    requires PhoneIsBehind(plan, ranks, c) && id in c.flights && c.challenge.Some? && c.outbox != []
    requires after == c.(outbox := c.outbox[1..], lastSent := after.lastSent,
                         flights := c.flights[id := c.flights[id].(stage := Sent(c.challenge.value))])
    ensures PhoneIsBehind(plan, ranks, after)
  {
  }

  lemma SentUp(plan: Plan, ranks: Ranks, top: nat, done: seq<nat>, c: Client, after: Client, up: seq<Frame>, f: Frame)
    requires PhoneIsBehind(plan, ranks, c) && UpIsBehind(plan, ranks, top, done, c, up)
    requires f.CallFrame? && f.id in c.flights && c.flights[f.id].stage == Queued && f.id !in done
    requires c.challenge == Some(f.under) && f.keyId == c.keyId && f.ctr < COUNTER_LIMIT
    requires f.command == c.flights[f.id].command
    requires after.flights == c.flights[f.id := c.flights[f.id].(stage := Sent(f.under))]
    requires after.challenge == c.challenge && after.nextCallId == c.nextCallId && after.keyId == c.keyId
    requires after.settled == c.settled
    ensures UpIsBehind(plan, ranks, top, done, after, up + [f])
  {
    var all := up + [f];
    forall i | 0 <= i < |all|
      ensures IsCarried(plan, ranks, after, all[i]) && all[i].id !in done
    {
      if i < |up| {
        assert IsCarried(plan, ranks, c, up[i]);
      }
    }
    forall i, j | 0 <= i < j < |all| && all[i].id == all[j].id
      ensures ranks[all[i].under] < ranks[all[j].under]
    {
      assert IsCarried(plan, ranks, c, up[i]);
    }
    forall i | 0 <= i < |all| && all[i].id in after.settled && after.settled[all[i].id] == ChallengeRefused
      ensures ranks[all[i].under] < top
    {
      assert i < |up|;
    }
  }

  lemma PassesUp(plan: Plan, ranks: Ranks, top: nat, done: seq<nat>, c: Client, after: Client, up: seq<Frame>)
    requires UpIsBehind(plan, ranks, top, done, c, up)
    requires after == c.(outbox := after.outbox, lastSent := after.lastSent, lastAccepted := after.lastAccepted)
    ensures UpIsBehind(plan, ranks, top, done, after, up)
  {
    forall i | 0 <= i < |up|
      ensures IsCarried(plan, ranks, after, up[i])
    {
      assert IsCarried(plan, ranks, c, up[i]);
    }
  }

  lemma PassesPhone(plan: Plan, ranks: Ranks, c: Client, after: Client)
    requires PhoneIsBehind(plan, ranks, c) && c.outbox != []
    requires after == c.(outbox := c.outbox[1..], lastSent := after.lastSent)
    ensures PhoneIsBehind(plan, ranks, after)
  {
  }

  lemma Passes(plan: Plan, keyId: nat, ran: seq<string>, s: Session, ranks: Ranks, top: nat, done: seq<nat>,
      after: Client)
    requires Holds(plan, keyId, ran, s, ranks, top, done) && s.phone.outbox != []
    requires after == s.phone.(outbox := s.phone.outbox[1..], lastSent := after.lastSent)
    ensures Holds(plan, keyId, ran, s.(phone := after), ranks, top, done)
  {
    PassesUp(plan, ranks, top, done, s.phone, after, s.up);
    PassesPhone(plan, ranks, s.phone, after);
  }

  lemma LeavesKeeps(opener: VectorHost.Opener, seal: Sealer, plan: Plan, keyId: nat, ran: seq<string>, s: Session,
      ranks: Ranks, top: nat, done: seq<nat>)
    requires Holds(plan, keyId, ran, s, ranks, top, done)
    ensures Holds(plan, keyId, ran, Moved(opener, seal, s, Leaves), ranks, top, done)
  {
    var c := s.phone;
    if c.outbox != [] {
      var (after, frame) := SendNext(c);
      SendsCall(plan, ranks, c);
      var id := c.outbox[0].id;
      if frame.Some? {
        SentPhone(plan, ranks, c, after, id);
        SentUp(plan, ranks, top, done, c, after, s.up, frame.value);
        assert AreAnswered(done, after, s.host, s.down);
      } else {
        var passed := c.(outbox := c.outbox[1..], lastSent := after.lastSent);
        Passes(plan, keyId, ran, s, ranks, top, done, passed);
        if after != passed {
          Settles(plan, keyId, ran, s.(phone := passed), ranks, top, done, id, CounterUnreadable);
        }
      }
    }
  }

  // ----------------------------------------------------------------- the host's steps

  /** What is ranked stays so; a draw installed is ranked above. */
  predicate GoesOn(ranks: Ranks, top: nat, newer: Ranks, newTop: nat) {
    top <= newTop && forall c :: c in ranks ==> c in newer && newer[c] == ranks[c]
  }

  function NewRanks(ranks: Ranks, top: nat, h: VectorHost.Host, after: VectorHost.Host): (Ranks, nat) {
    if after.draws == h.draws || h.draws == [] then (ranks, top) else (ranks[h.draws[0] := top + 1], top + 1)
  }

  lemma RefusedRanks(ranks: Ranks, top: nat, h: VectorHost.Host, after: VectorHost.Host, pushed: seq<Push>)
    requires AreRanks(ranks, top, h) && VectorHost.Refused(h, after, pushed)
    ensures var (newer, newTop) := NewRanks(ranks, top, h, after);
            AreRanks(newer, newTop, after) && GoesOn(ranks, top, newer, newTop)
  {
    if after.draws != h.draws {
      var d, rest := h.draws[0], h.draws[1..];
      assert d in h.draws && h.draws == [d] + rest;
      forall i, j | 0 <= i < j < |rest|
        ensures rest[i] != rest[j]
      {
        assert rest[i] == h.draws[i + 1] && rest[j] == h.draws[j + 1];
      }
      forall e | e in rest
        ensures e in h.draws && e != d
      {
        var i :| 0 <= i < |rest| && rest[i] == e;
        assert h.draws[i + 1] == e;
      }
    }
  }

  lemma NewerLevel(ranks: Ranks, top: nat, newer: Ranks, newTop: nat, plan: Plan, c: Client)
    requires GoesOn(ranks, top, newer, newTop) && PhoneIsBehind(plan, ranks, c)
    ensures LevelOf(newer, c) == LevelOf(ranks, c) && PhoneIsBehind(plan, newer, c)
  {
  }

  lemma NewerUp(plan: Plan, ranks: Ranks, top: nat, newer: Ranks, newTop: nat, done: seq<nat>, c: Client,
      up: seq<Frame>)
    requires GoesOn(ranks, top, newer, newTop) && PhoneIsBehind(plan, ranks, c)
    requires UpIsBehind(plan, ranks, top, done, c, up)
    ensures UpIsBehind(plan, newer, newTop, done, c, up)
  {
    NewerLevel(ranks, top, newer, newTop, plan, c);
    forall i | 0 <= i < |up|
      ensures IsCarried(plan, newer, c, up[i])
    {
      assert IsCarried(plan, ranks, c, up[i]);
    }
  }

  lemma LevelAtMost(ranks: Ranks, top: nat, h: VectorHost.Host, c: Client)
    requires AreRanks(ranks, top, h)
    ensures LevelOf(ranks, c) <= top
  {
  }

  lemma RefusedDown(ranks: Ranks, top: nat, newer: Ranks, newTop: nat, done: seq<nat>, level: nat, heard: nat,
      h: VectorHost.Host, after: VectorHost.Host, pushed: seq<Push>, down: seq<Push>)
    requires DownIsAhead(ranks, done, level, heard, h, down) && VectorHost.Refused(h, after, pushed)
    requires GoesOn(ranks, top, newer, newTop) && AreRanks(newer, newTop, after) && level <= newTop
    ensures DownIsAhead(newer, done, level, heard, after, down + pushed)
  {
    var all := down + pushed;
    forall i | 0 <= i < |all|
      ensures IsTold(newer, done, all[i]) && heard < all[i].ctr <= after.ctr
      ensures all[i].plaintext.Hello? ==> level <= newer[all[i].shown.value] <= newTop
      ensures i < |down| ==> all[i].ctr <= h.ctr
      ensures i >= |down| ==> all[i].ctr == h.ctr + 1 && all[i].plaintext.Hello? && newer[all[i].shown.value] == newTop
    {
      if i < |down| {
        assert IsTold(ranks, done, down[i]);
      }
    }
  }

  lemma RefusedAnswered(done: seq<nat>, c: Client, h: VectorHost.Host, after: VectorHost.Host, pushed: seq<Push>,
      down: seq<Push>)
    requires AreAnswered(done, c, h, down) && VectorHost.Refused(h, after, pushed)
    ensures AreAnswered(done, c, after, down + pushed)
  {
    forall id | id in done && id in c.flights
      ensures IsAnswered(after, down + pushed, id, c.flights[id].stage.under)
    {
      StillAnswered(h, down, id, c.flights[id].stage.under, after, pushed);
    }
  }

  lemma StillAnswered(h: VectorHost.Host, down: seq<Push>, id: nat, under: bytes, after: VectorHost.Host,
      pushed: seq<Push>)
    requires IsAnswered(h, down, id, under) && h.ctr <= after.ctr && (pushed == [] || h.ctr + 1 < COUNTER_LIMIT)
    ensures IsAnswered(after, down + pushed, id, under)
  {
    var q: nat :| IsAnsweredAt(h, down, id, under, q);
    var all := down + pushed;
    assert forall i :: 0 <= i < q ==> all[i] == down[i];
    assert IsAnsweredAt(after, all, id, under, q);
  }

  /** A refusal, with the frames that are left on their way. */
  lemma RefusalKeeps(plan: Plan, keyId: nat, ran: seq<string>, s: Session, ranks: Ranks, top: nat, done: seq<nat>,
      h: VectorHost.Host, pushed: seq<Push>)
    requires Holds(plan, keyId, ran, s, ranks, top, done) && VectorHost.Refused(s.host, h, pushed)
    ensures var (newer, newTop) := NewRanks(ranks, top, s.host, h);
            Holds(plan, keyId, ran, s.(host := h, down := s.down + pushed), newer, newTop, done)
  {
    var (newer, newTop) := NewRanks(ranks, top, s.host, h);
    RefusedRanks(ranks, top, s.host, h, pushed);
    NewerLevel(ranks, top, newer, newTop, plan, s.phone);
    NewerUp(plan, ranks, top, newer, newTop, done, s.phone, s.up);
    LevelAtMost(newer, newTop, h, s.phone);
    RefusedDown(ranks, top, newer, newTop, done, LevelOf(ranks, s.phone), HeardOf(s.phone), s.host, h, pushed, s.down);
    RefusedAnswered(done, s.phone, s.host, h, pushed, s.down);
  }

  lemma UpShortens(plan: Plan, ranks: Ranks, top: nat, done: seq<nat>, c: Client, up: seq<Frame>)
    requires UpIsBehind(plan, ranks, top, done, c, up) && up != []
    ensures UpIsBehind(plan, ranks, top, done, c, up[1..])
  {
    var rest := up[1..];
    assert forall i :: 0 <= i < |rest| ==> rest[i] == up[i + 1];
  }

  /** Behind a frame under the newest challenge there is none of its call, and the call was last sent by it. */
  lemma NewestIsLast(plan: Plan, ranks: Ranks, top: nat, done: seq<nat>, c: Client, h: VectorHost.Host, up: seq<Frame>)
    requires UpIsBehind(plan, ranks, top, done, c, up) && AreRanks(ranks, top, h) && PhoneIsBehind(plan, ranks, c)
    requires up != [] && up[0].CallFrame? && h.held == Some(up[0].under)
    ensures forall i :: 0 < i < |up| ==> up[i].id != up[0].id
    ensures up[0].id in c.flights ==>
              c.flights[up[0].id].stage == Sent(up[0].under) && LevelOf(ranks, c) == top
    ensures up[0].id in c.settled ==> c.settled[up[0].id] != ChallengeRefused
  {
    LevelAtMost(ranks, top, h, c);
    assert IsCarried(plan, ranks, c, up[0]);
    forall i | 0 < i < |up|
      ensures up[i].id != up[0].id
    {
      assert IsCarried(plan, ranks, c, up[i]);
    }
  }

  lemma ServedUp(plan: Plan, ranks: Ranks, top: nat, done: seq<nat>, c: Client, up: seq<Frame>, id: nat)
    requires UpIsBehind(plan, ranks, top, done, c, up) && forall i :: 0 <= i < |up| ==> up[i].id != id
    ensures UpIsBehind(plan, ranks, top, done + [id], c, up)
  {
  }

  lemma ServedDown(ranks: Ranks, done: seq<nat>, level: nat, heard: nat, h: VectorHost.Host, after: VectorHost.Host,
      pushed: seq<Push>, down: seq<Push>, c: bytes, id: nat, command: string)
    requires DownIsAhead(ranks, done, level, heard, h, down) && VectorHost.Served(h, c, id, command, after, pushed)
    ensures DownIsAhead(ranks, done + [id], level, heard, after, down + pushed)
  {
    var all := down + pushed;
    forall i | 0 <= i < |all|
      ensures IsTold(ranks, done + [id], all[i]) && heard < all[i].ctr <= after.ctr
      ensures i >= |down| ==> all[i].ctr == h.ctr + 1 && all[i].plaintext.Answer?
    {
      if i < |down| {
        assert IsTold(ranks, done, down[i]);
      }
    }
  }

  /** When the phone is at the newest challenge every hello on its way shows that one. */
  lemma ServedIsAnswered(ranks: Ranks, top: nat, done: seq<nat>, heard: nat, h: VectorHost.Host, after: VectorHost.Host,
      pushed: seq<Push>, down: seq<Push>, c: bytes, id: nat, command: string)
    requires DownIsAhead(ranks, done, top, heard, h, down) && AreRanks(ranks, top, h)
    requires VectorHost.Served(h, c, id, command, after, pushed)
    ensures IsAnswered(after, down + pushed, id, c)
  {
    forall i | 0 <= i < |down| && down[i].plaintext.Hello?
      ensures down[i].shown == Some(c)
    {
      assert IsTold(ranks, done, down[i]);
      assert ranks[down[i].shown.value] == top;
    }
    assert forall i :: 0 <= i < |down| ==> (down + pushed)[i] == down[i];
    assert IsAnsweredAt(after, down + pushed, id, c, |down|);
  }

  lemma ServedTrue(plan: Plan, ran: seq<string>, done: seq<nat>, c: Client, h: VectorHost.Host, after: VectorHost.Host,
      id: nat)
    requires IsTrue(plan, ran, done, c, h) && id in plan && id < c.nextCallId && id !in done
    requires after.ran == h.ran + [plan[id]] && (id in c.settled ==> c.settled[id] != ChallengeRefused)
    ensures IsTrue(plan, ran, done + [id], c, after)
  {
    assert CommandsOf(done + [id], plan) == CommandsOf(done, plan) + [plan[id]];
  }

  lemma ServiceKeeps(plan: Plan, keyId: nat, ran: seq<string>, s: Session, ranks: Ranks, top: nat, done: seq<nat>,
      h: VectorHost.Host, pushed: seq<Push>)
    requires Holds(plan, keyId, ran, s, ranks, top, done) && s.up != [] && s.up[0].CallFrame?
    requires VectorHost.Served(s.host, s.up[0].under, s.up[0].id, s.up[0].command, h, pushed)
    ensures Holds(plan, keyId, ran, s.(host := h, up := s.up[1..], down := s.down + pushed), ranks, top,
              done + [s.up[0].id])
  {
    var c, id, under := s.phone, s.up[0].id, s.up[0].under;
    assert IsCarried(plan, ranks, c, s.up[0]);
    NewestIsLast(plan, ranks, top, done, c, s.host, s.up);
    UpShortens(plan, ranks, top, done, c, s.up);
    ServedUp(plan, ranks, top, done, c, s.up[1..], id);
    ServedDown(ranks, done, LevelOf(ranks, c), HeardOf(c), s.host, h, pushed, s.down, under, id, s.up[0].command);
    ServedTrue(plan, ran, done, c, s.host, h, id);
    ServedAnswered(plan, keyId, ran, s, ranks, top, done, h, pushed);
  }

  lemma ServedAnswered(plan: Plan, keyId: nat, ran: seq<string>, s: Session, ranks: Ranks, top: nat, done: seq<nat>,
      h: VectorHost.Host, pushed: seq<Push>)
    requires Holds(plan, keyId, ran, s, ranks, top, done) && s.up != [] && s.up[0].CallFrame?
    requires VectorHost.Served(s.host, s.up[0].under, s.up[0].id, s.up[0].command, h, pushed)
    ensures AreAnswered(done + [s.up[0].id], s.phone, h, s.down + pushed)
  {
    var c, id, under := s.phone, s.up[0].id, s.up[0].under;
    NewestIsLast(plan, ranks, top, done, c, s.host, s.up);
    forall other | other in done + [id] && other in c.flights
      ensures c.flights[other].stage.Sent? && IsAnswered(h, s.down + pushed, other, c.flights[other].stage.under)
    {
      if other == id {
        ServedIsAnswered(ranks, top, done, HeardOf(c), s.host, h, pushed, s.down, under, id, s.up[0].command);
      } else {
        StillAnswered(s.host, s.down, other, c.flights[other].stage.under, h, pushed);
      }
    }
  }

  lemma ArrivesKeeps(opener: VectorHost.Opener, seal: Sealer, plan: Plan, keyId: nat, ran: seq<string>, s: Session,
      ranks: Ranks, top: nat, done: seq<nat>) returns (newer: Ranks, newTop: nat, all: seq<nat>)
    requires SealsEach(opener, seal, keyId, plan) && Holds(plan, keyId, ran, s, ranks, top, done)
    ensures Holds(plan, keyId, ran, Moved(opener, seal, s, Arrives), newer, newTop, all)
  {
    newer, newTop, all := ranks, top, done;
    if s.up != [] {
      var f := s.up[0];
      assert IsCarried(plan, ranks, s.phone, f);
      var e := VectorHost.Receive(opener, s.host, Some(seal(f)));
      var pushed := VectorHost.Pushes(e.entries);
      CallIsServedOrRefused(opener, seal, plan, keyId, s.host, f);
      if VectorHost.Refused(s.host, e.host, pushed) {
        UpShortens(plan, ranks, top, done, s.phone, s.up);
        RefusalKeeps(plan, keyId, ran, s.(up := s.up[1..]), ranks, top, done, e.host, pushed);
        newer, newTop := NewRanks(ranks, top, s.host, e.host).0, NewRanks(ranks, top, s.host, e.host).1;
      } else {
        ServiceKeeps(plan, keyId, ran, s, ranks, top, done, e.host, pushed);
        all := done + [f.id];
      }
    }
  }

  lemma CallIsServedOrRefused(opener: VectorHost.Opener, seal: Sealer, plan: Plan, keyId: nat, h: VectorHost.Host,
      f: Frame)
    requires SealsEach(opener, seal, keyId, plan) && f.CallFrame? && f.keyId == keyId && f.id in plan
    requires f.command == plan[f.id] && |f.under| == 32 && f.ctr < COUNTER_LIMIT
    ensures var e := VectorHost.Receive(opener, h, Some(seal(f)));
            || VectorHost.Refused(h, e.host, VectorHost.Pushes(e.entries))
            || VectorHost.Served(h, f.under, f.id, f.command, e.host, VectorHost.Pushes(e.entries))
  {
    assert f == CallFrame(keyId, f.ctr, f.under, f.id, f.command);
    VectorHost.ServesOrRefuses(opener, h, ClientOf(seal, keyId, f.id, f.command), f.under, f.ctr, f.id, f.command);
  }

  // ---------------------------------------------------------------------- hearing

  /** What a challenge makes of a call in flight, if it stays so. */
  function HeardFlight(flight: Flight, news: bytes): Option<Flight> {
    match flight.stage
    case AwaitingChallenge => Some(flight.(stage := Queued))
    case Queued => Some(flight)
    case Sent(under) =>
      if under == news then Some(flight)
      else if flight.isResent then None
      else Some(flight.(stage := Queued, isResent := true))
  }

  /** The calls below an id that a challenge gives up. */
  predicate GivesUp(c: Client, news: bytes, n: nat, id: nat) {
    id in c.flights && id < n && HeardFlight(c.flights[id], news).None?
  }

  /** What became of one call. */
  predicate IsToldOf(c: Client, news: bytes, n: nat, d: Client, id: nat) {
    && (id in d.flights <==> id in c.flights && !GivesUp(c, news, n, id))
    && (id in d.flights ==>
          d.flights[id] == if id < n then HeardFlight(c.flights[id], news).value else c.flights[id])
    && (id in d.settled <==> id in c.settled || GivesUp(c, news, n, id))
    && (id in d.settled ==> d.settled[id] == if GivesUp(c, news, n, id) then ChallengeRefused else c.settled[id])
  }

  ghost predicate HasTold(c: Client, news: bytes, n: nat, d: Client) {
    && d == c.(flights := d.flights, outbox := d.outbox, settled := d.settled)
    && (forall o :: o in d.outbox ==> o in c.outbox || o.Call?)
    && forall id: nat :: IsToldOf(c, news, n, d, id)
  }

  lemma TellsThat(c: Client, news: bytes, n: nat, d: Client)
    requires IsToldOf(c, news, n, d, n)
    ensures IsToldOf(c, news, n + 1, Tell(d, n, news), n)
  {
  }

  /** The same of a call in both. */
  predicate IsAlike(d: Client, after: Client, id: nat) {
    && (id in after.flights <==> id in d.flights) && (id in d.flights ==> after.flights[id] == d.flights[id])
    && (id in after.settled <==> id in d.settled) && (id in d.settled ==> after.settled[id] == d.settled[id])
  }

  lemma TellsNoOther(d: Client, n: nat, news: bytes, id: nat)
    requires id != n
    ensures IsAlike(d, Tell(d, n, news), id)
  {
  }

  lemma AlikeIsTold(c: Client, news: bytes, n: nat, d: Client, after: Client, id: nat)
    requires IsToldOf(c, news, n, d, id) && IsAlike(d, after, id) && id != n
    ensures IsToldOf(c, news, n + 1, after, id)
  {
  }

  lemma TellsNext(c: Client, news: bytes, n: nat, d: Client)
    requires HasTold(c, news, n, d)
    ensures HasTold(c, news, n + 1, Tell(d, n, news))
  {
    var after, next := Tell(d, n, news), n + 1;
    assert IsToldOf(c, news, n, d, n);
    forall id: nat
      ensures IsToldOf(c, news, next, after, id)
    {
      assert IsToldOf(c, news, n, d, id);
      if id == n {
        TellsThat(c, news, n, d);
      } else {
        TellsNoOther(d, n, news, id);
        AlikeIsTold(c, news, n, d, after, id);
      }
    }
    TellsOutbox(d, n, news);
  }

  lemma TellsOutbox(d: Client, n: nat, news: bytes)
    ensures var after := Tell(d, n, news);
            && after == d.(flights := after.flights, outbox := after.outbox, settled := after.settled)
            && forall o :: o in after.outbox ==> o in d.outbox || o.Call?
  {
  }

  lemma {:induction false} TellsEach(c: Client, news: bytes, n: nat)
    ensures HasTold(c, news, n, TellUpTo(Telling(news), c, n))
  {
    if n > 0 {
      TellsEach(c, news, n - 1);
      TellsNext(c, news, n - 1, TellUpTo(Telling(news), c, n - 1));
    }
  }

  /** A hello under a challenge that is none older: what was sent under another one was sent under an older one. */
  lemma OthersAreOlder(ranks: Ranks, top: nat, h: VectorHost.Host, plan: Plan, c: Client, news: bytes, id: nat)
    requires AreRanks(ranks, top, h) && PhoneIsBehind(plan, ranks, c)
    requires news in ranks && LevelOf(ranks, c) <= ranks[news]
    requires id in c.flights && c.flights[id].stage.Sent? && c.flights[id].stage.under != news
    ensures ranks[c.flights[id].stage.under] < ranks[news] <= top
  {
  }

  lemma HeardOne(plan: Plan, ranks: Ranks, top: nat, h: VectorHost.Host, c: Client, news: bytes, after: Client, id: nat)
    requires PhoneIsBehind(plan, ranks, c) && news in ranks && id in after.flights
    requires IsToldOf(c.(challenge := Some(news)), news, c.nextCallId, after, id)
    ensures id in c.flights && id < c.nextCallId && id in plan && after.flights[id].command == plan[id]
    ensures after.flights[id].stage.Sent? ==> after.flights[id].stage.under == news
    ensures id !in after.settled
  {
    assert c.(challenge := Some(news)).flights == c.flights;
  }

  lemma HeardPhone(plan: Plan, ranks: Ranks, top: nat, h: VectorHost.Host, c: Client, news: bytes, after: Client)
    requires AreRanks(ranks, top, h) && PhoneIsBehind(plan, ranks, c) && |news| == 32
    requires news in ranks && LevelOf(ranks, c) <= ranks[news]
    requires HasTold(c.(challenge := Some(news)), news, c.nextCallId, after)
    ensures PhoneIsBehind(plan, ranks, after) && LevelOf(ranks, after) == ranks[news]
  {
    var told := c.(challenge := Some(news));
    forall id | id in after.flights
      ensures id < after.nextCallId && id in plan && after.flights[id].command == plan[id]
      ensures after.flights[id].stage.Sent? ==> after.flights[id].stage.under == news
    {
      assert IsToldOf(told, news, c.nextCallId, after, id);
      HeardOne(plan, ranks, top, h, c, news, after, id);
    }
    forall id | id in after.settled
      ensures id !in after.flights && id < after.nextCallId
    {
      assert IsToldOf(told, news, c.nextCallId, after, id);
    }
  }

  lemma HeardUp(plan: Plan, ranks: Ranks, top: nat, done: seq<nat>, h: VectorHost.Host, c: Client, up: seq<Frame>,
      news: bytes, after: Client)
    requires AreRanks(ranks, top, h) && PhoneIsBehind(plan, ranks, c) && UpIsBehind(plan, ranks, top, done, c, up)
    requires news in ranks && LevelOf(ranks, c) <= ranks[news]
    requires HasTold(c.(challenge := Some(news)), news, c.nextCallId, after)
    ensures UpIsBehind(plan, ranks, top, done, after, up)
  {
    forall i | 0 <= i < |up|
      ensures IsCarried(plan, ranks, after, up[i])
      ensures up[i].id in after.settled && after.settled[up[i].id] == ChallengeRefused ==> ranks[up[i].under] < top
    {
      assert IsCarried(plan, ranks, c, up[i]);
      FrameStaysBehind(plan, ranks, top, h, c, up[i], news, after);
    }
  }

  lemma FrameStaysBehind(plan: Plan, ranks: Ranks, top: nat, h: VectorHost.Host, c: Client, f: Frame,
      news: bytes, after: Client)
    requires AreRanks(ranks, top, h) && PhoneIsBehind(plan, ranks, c) && IsCarried(plan, ranks, c, f)
    requires news in ranks && LevelOf(ranks, c) <= ranks[news]
    requires f.id in c.settled && c.settled[f.id] == ChallengeRefused ==> ranks[f.under] < top
    requires HasTold(c.(challenge := Some(news)), news, c.nextCallId, after)
    ensures IsCarried(plan, ranks, after, f)
    ensures f.id in after.settled && after.settled[f.id] == ChallengeRefused ==> ranks[f.under] < top
  {
    assert IsToldOf(c.(challenge := Some(news)), news, c.nextCallId, after, f.id);
    if f.id in c.flights && c.flights[f.id].stage.Sent? && c.flights[f.id].stage.under != news {
      OthersAreOlder(ranks, top, h, plan, c, news, f.id);
    }
  }

  lemma HeardDown(ranks: Ranks, done: seq<nat>, level: nat, heard: nat, h: VectorHost.Host, down: seq<Push>, newer: nat)
    requires DownIsAhead(ranks, done, level, heard, h, down) && down != []
    requires newer <= level || (down[0].plaintext.Hello? && newer == ranks[down[0].shown.value])
    ensures DownIsAhead(ranks, done, newer, down[0].ctr, h, down[1..])
  {
    var rest := down[1..];
    forall i | 0 <= i < |rest|
      ensures IsTold(ranks, done, rest[i]) && down[0].ctr < rest[i].ctr <= h.ctr
      ensures rest[i].plaintext.Hello? ==> newer <= ranks[rest[i].shown.value]
    {
      assert rest[i] == down[i + 1];
    }
  }

  /** The answer of a call that ran is behind what was just heard. */
  lemma AnswerStaysAhead(h: VectorHost.Host, down: seq<Push>, id: nat, under: bytes)
    requires IsAnswered(h, down, id, under) && down != [] && down[0].Pushed? && !IsAnswer(down[0], id)
    ensures IsAnswered(h, down[1..], id, under)
    ensures down[0].plaintext.Hello? ==> down[0].shown == Some(under)
  {
    var q: nat :| IsAnsweredAt(h, down, id, under, q);
    var rest := down[1..];
    assert q > 0;
    assert forall i :: 0 <= i < |rest| ==> rest[i] == down[i + 1];
    assert IsAnsweredAt(h, rest, id, under, q - 1);
  }

  lemma HeardAnswered(done: seq<nat>, c: Client, h: VectorHost.Host, down: seq<Push>, news: bytes, after: Client)
    requires AreAnswered(done, c, h, down) && down != [] && IsHello(down[0], news)
    requires HasTold(c.(challenge := Some(news)), news, c.nextCallId, after)
    ensures AreAnswered(done, after, h, down[1..])
    ensures forall id :: id in done ==> !GivesUp(c, news, c.nextCallId, id)
  {
    forall id | id in done && id in c.flights
      ensures c.flights[id].stage == Sent(news) && IsAnswered(h, down[1..], id, news)
    {
      AnswerStaysAhead(h, down, id, c.flights[id].stage.under);
    }
    forall id | id in done && id in after.flights
      ensures after.flights[id].stage == Sent(news) && IsAnswered(h, down[1..], id, news)
    {
      assert IsToldOf(c.(challenge := Some(news)), news, c.nextCallId, after, id);
    }
  }

  lemma HeardTrue(plan: Plan, ran: seq<string>, done: seq<nat>, c: Client, h: VectorHost.Host, news: bytes,
      after: Client)
    requires IsTrue(plan, ran, done, c, h)
    requires HasTold(c.(challenge := Some(news)), news, c.nextCallId, after)
    requires forall id :: id in done ==> !GivesUp(c, news, c.nextCallId, id)
    ensures IsTrue(plan, ran, done, after, h)
  {
    forall id | id in after.settled
      ensures after.settled[id] == Answered ==> id in done
      ensures after.settled[id] == ChallengeRefused ==> id !in done
    {
      assert IsToldOf(c.(challenge := Some(news)), news, c.nextCallId, after, id);
      assert GivesUp(c.(challenge := Some(news)), news, c.nextCallId, id) <==> GivesUp(c, news, c.nextCallId, id);
    }
  }

  lemma HelloKeeps(plan: Plan, keyId: nat, ran: seq<string>, s: Session, ranks: Ranks, top: nat, done: seq<nat>,
      news: bytes, accepted: Client)
    requires Holds(plan, keyId, ran, s, ranks, top, done) && s.down != [] && IsHello(s.down[0], news)
    requires accepted == s.phone.(lastAccepted := s.phone.lastAccepted[keyId := s.down[0].ctr])
    ensures Holds(plan, keyId, ran, s.(phone := HearChallenge(accepted, news), down := s.down[1..]), ranks, top, done)
  {
    var c, after := accepted, HearChallenge(accepted, news);
    assert IsTold(ranks, done, s.down[0]);
    TellsEach(c.(challenge := Some(news)), news, c.nextCallId);
    PassesUp(plan, ranks, top, done, s.phone, c, s.up);
    assert PhoneIsBehind(plan, ranks, c);
    HeardPhone(plan, ranks, top, s.host, c, news, after);
    HeardUp(plan, ranks, top, done, s.host, c, s.up, news, after);
    HeardDown(ranks, done, LevelOf(ranks, c), HeardOf(s.phone), s.host, s.down, ranks[news]);
    assert AreAnswered(done, c, s.host, s.down) && IsTrue(plan, ran, done, c, s.host);
    HeardAnswered(done, c, s.host, s.down, news, after);
    HeardTrue(plan, ran, done, c, s.host, news, after);
  }

  lemma AnsweredOthers(done: seq<nat>, c: Client, h: VectorHost.Host, down: seq<Push>, id: nat)
    requires AreAnswered(done, c, h, down) && down != [] && IsAnswer(down[0], id)
    ensures AreAnswered(done, Settle(c, id, Answered), h, down[1..])
  {
    var after := Settle(c, id, Answered);
    forall other | other in done && other in after.flights
      ensures after.flights[other].stage.Sent? && IsAnswered(h, down[1..], other, after.flights[other].stage.under)
    {
      assert other != id && other in c.flights;
      AnswerStaysAhead(h, down, other, c.flights[other].stage.under);
    }
  }

  lemma AnswerKeeps(plan: Plan, keyId: nat, ran: seq<string>, s: Session, ranks: Ranks, top: nat, done: seq<nat>,
      id: nat, accepted: Client)
    requires Holds(plan, keyId, ran, s, ranks, top, done) && s.down != [] && IsAnswer(s.down[0], id)
    requires accepted == s.phone.(lastAccepted := s.phone.lastAccepted[keyId := s.down[0].ctr])
    ensures Holds(plan, keyId, ran, s.(phone := Settle(accepted, id, Answered), down := s.down[1..]), ranks, top, done)
  {
    assert IsTold(ranks, done, s.down[0]);
    PassesUp(plan, ranks, top, done, s.phone, accepted, s.up);
    SettleKeepsUp(plan, ranks, top, done, accepted, s.up, id, Answered);
    assert PhoneIsBehind(plan, ranks, accepted);
    SettleKeepsPhone(plan, ranks, accepted, id, Answered);
    HeardDown(ranks, done, LevelOf(ranks, accepted), HeardOf(s.phone), s.host, s.down, LevelOf(ranks, accepted));
    assert AreAnswered(done, accepted, s.host, s.down) && IsTrue(plan, ran, done, accepted, s.host);
    SettleKeepsTrue(plan, ran, done, accepted, s.host, s.down, id, Answered);
    AnsweredOthers(done, accepted, s.host, s.down, id);
  }

  lemma ReachesKeeps(opener: VectorHost.Opener, seal: Sealer, plan: Plan, keyId: nat, ran: seq<string>, s: Session,
      ranks: Ranks, top: nat, done: seq<nat>)
    requires Holds(plan, keyId, ran, s, ranks, top, done)
    ensures Holds(plan, keyId, ran, Moved(opener, seal, s, Reaches), ranks, top, done)
  {
    if s.down != [] {
      var c, e := s.phone, s.down[0];
      var accepted := c.(lastAccepted := c.lastAccepted[keyId := e.ctr]);
      assert IsTold(ranks, done, e);
      HearsPush(c, e);
      if e.plaintext.Hello? {
        HelloKeeps(plan, keyId, ran, s, ranks, top, done, e.shown.value, accepted);
        assert IsHello(e, e.shown.value);
      } else {
        AnswerKeeps(plan, keyId, ran, s, ranks, top, done, e.plaintext.id, accepted);
        assert IsAnswer(e, e.plaintext.id);
      }
    }
  }

  // ----------------------------------------------------------------- every schedule

  ghost predicate IsKnown(plan: Plan, keyId: nat, ran: seq<string>, s: Session) {
    exists ranks: Ranks, top: nat, done: seq<nat> :: Holds(plan, keyId, ran, s, ranks, top, done)
  }

  ghost function Knowing(plan: Plan, keyId: nat, ran: seq<string>): Session -> bool {
    (s: Session) => IsKnown(plan, keyId, ran, s)
  }

  lemma MoveKeeps(opener: VectorHost.Opener, seal: Sealer, plan: Plan, keyId: nat, ran: seq<string>, s: Session,
      m: Move)
    requires SealsEach(opener, seal, keyId, plan) && IsKnown(plan, keyId, ran, s)
    ensures IsKnown(plan, keyId, ran, Moved(opener, seal, s, m))
  {
    var ranks: Ranks, top: nat, done: seq<nat> :| Holds(plan, keyId, ran, s, ranks, top, done);
    match m {
      case Leaves => LeavesKeeps(opener, seal, plan, keyId, ran, s, ranks, top, done);
      case Arrives => var newer, newTop, all := ArrivesKeeps(opener, seal, plan, keyId, ran, s, ranks, top, done);
      case Reaches => ReachesKeeps(opener, seal, plan, keyId, ran, s, ranks, top, done);
    }
  }

  lemma RefusalIsKnown(plan: Plan, keyId: nat, ran: seq<string>, s: Session, e: VectorHost.Effect)
    requires IsKnown(plan, keyId, ran, s) && VectorHost.Refused(s.host, e.host, VectorHost.Pushes(e.entries))
    ensures IsKnown(plan, keyId, ran, Greeted(s, e))
  {
    var ranks: Ranks, top: nat, done: seq<nat> :| Holds(plan, keyId, ran, s, ranks, top, done);
    RefusalKeeps(plan, keyId, ran, s, ranks, top, done, e.host, VectorHost.Pushes(e.entries));
  }

  lemma GreetsKeeps(opener: VectorHost.Opener, plan: Plan, keyId: nat, ran: seq<string>, s: Session)
    requires IsKnown(plan, keyId, ran, s)
    ensures IsKnown(plan, keyId, ran, Greeted(s, VectorHost.Step(opener, s.host, VectorHost.Event.AnswerTheHello)))
  {
    VectorHost.HelloIsRefusal(opener, s.host);
    RefusalIsKnown(plan, keyId, ran, s, VectorHost.Step(opener, s.host, VectorHost.Event.AnswerTheHello));
  }

  lemma RestartsKeep(plan: Plan, keyId: nat, ran: seq<string>, s: Session, calls: int)
    requires IsKnown(plan, keyId, ran, s)
    ensures IsKnown(plan, keyId, ran, s.(host := s.host.(restarts := calls)))
  {
    var ranks: Ranks, top: nat, done: seq<nat> :| Holds(plan, keyId, ran, s, ranks, top, done);
    var h := s.host.(restarts := calls);
    RefusedAnswered(done, s.phone, s.host, h, [], s.down);
    assert s.down + [] == s.down;
    assert Holds(plan, keyId, ran, s.(host := h), ranks, top, done);
  }

  lemma AskingKeeps(plan: Plan, keyId: nat, ran: seq<string>, s: Session)
    requires IsKnown(plan, keyId, ran, s) && s.phone.nextCallId in plan
    ensures IsKnown(plan, keyId, ran, s.(phone := Begin(s.phone, plan[s.phone.nextCallId]).0))
  {
    var ranks: Ranks, top: nat, done: seq<nat> :| Holds(plan, keyId, ran, s, ranks, top, done);
    AsksKeeps(plan, keyId, ran, s, ranks, top, done);
  }

  lemma ExpiringKeeps(plan: Plan, keyId: nat, ran: seq<string>, s: Session, id: nat)
    requires IsKnown(plan, keyId, ran, s)
    ensures IsKnown(plan, keyId, ran, s.(phone := Settle(s.phone, id, TimedOut)))
  {
    var ranks: Ranks, top: nat, done: seq<nat> :| Holds(plan, keyId, ran, s, ranks, top, done);
    Settles(plan, keyId, ran, s, ranks, top, done, id, TimedOut);
  }

  /** A happening is one of the five. */
  lemma KeptByEach(opener: VectorHost.Opener, seal: Sealer, plan: Plan, known: Session -> bool, s: Session, e: Happening)
    requires known(s) && (e.Goes? ==> known(Moved(opener, seal, s, e.move)))
    requires e.Asks? && s.phone.nextCallId in plan ==>
               known(s.(phone := Begin(s.phone, plan[s.phone.nextCallId]).0))
    requires e.Expires? ==> known(s.(phone := Settle(s.phone, e.id, TimedOut)))
    requires e.Restarts? ==> known(s.(host := s.host.(restarts := e.calls)))
    requires e.Greets? ==> known(Greeted(s, VectorHost.Step(opener, s.host, VectorHost.Event.AnswerTheHello)))
    ensures known(Happened(opener, seal, plan, s, e))
  {
  }

  lemma HappeningKeeps(opener: VectorHost.Opener, seal: Sealer, plan: Plan, keyId: nat, ran: seq<string>, s: Session,
      e: Happening)
    requires SealsEach(opener, seal, keyId, plan) && IsKnown(plan, keyId, ran, s)
    ensures Knowing(plan, keyId, ran)(Happened(opener, seal, plan, s, e))
  {
    match e {
      case Goes(m) => MoveKeeps(opener, seal, plan, keyId, ran, s, m);
      case Asks =>
        if s.phone.nextCallId in plan {
          AskingKeeps(plan, keyId, ran, s);
        }
      case Expires(id) => ExpiringKeeps(plan, keyId, ran, s, id);
      case Restarts(calls) => RestartsKeep(plan, keyId, ran, s, calls);
      case Greets => GreetsKeeps(opener, plan, keyId, ran, s);
    }
    KeptByEach(opener, seal, plan, Knowing(plan, keyId, ran), s, e);
  }

  /** A connection no call of which was made, its hello sent, with fresh challenges at the host. */
  ghost predicate IsFresh(s: Session) {
    && s.phone.challenge == None && s.phone.outbox == [] && s.phone.flights == map[] && s.phone.settled == map[]
    && s.up == [] && s.down == [] && HeardOf(s.phone) <= s.host.ctr
    && Distinct(s.host.draws) && (s.host.held.Some? ==> s.host.held.value !in s.host.draws)
  }

  lemma FreshIsKnown(plan: Plan, s: Session)
    requires IsFresh(s)
    ensures IsKnown(plan, s.phone.keyId, s.host.ran, s)
  {
    var held := s.host.held;
    var ranks: Ranks := if held.Some? then map[held.value := 1] else map[];
    assert CommandsOf([], plan) == [] && s.host.ran + [] == s.host.ran;
    assert Holds(plan, s.phone.keyId, s.host.ran, s, ranks, 1, []);
  }

  /** The calls that ran, each once and in that order; every answered one, and none that was refused. */
  ghost predicate TellsTheTruth(plan: Plan, ran: seq<string>, s: Session, done: seq<nat>) {
    && Distinct(done) && (forall id :: id in done ==> id in plan)
    && s.host.ran == ran + CommandsOf(done, plan)
    && forall id :: id in s.phone.settled ==>
         && (s.phone.settled[id] == Answered ==> id in done)
         && (s.phone.settled[id] == ChallengeRefused ==> id !in done)
  }

  /**
   From a fresh connection, whatever happens: no call runs twice, one that the phone says
   was answered ran, and one that it gave up as refused did not.
   */
  lemma NoCallRunsTwice(opener: VectorHost.Opener, seal: Sealer, plan: Plan, s: Session, happenings: seq<Happening>)
    requires IsFresh(s) && SealsEach(opener, seal, s.phone.keyId, plan)
    ensures exists done: seq<nat> ::
              TellsTheTruth(plan, s.host.ran, After(Happens(opener, seal, plan), s, happenings), done)
  {
    var happens, keyId, ran := Happens(opener, seal, plan), s.phone.keyId, s.host.ran;
    var known := Knowing(plan, keyId, ran);
    FreshIsKnown(plan, s);
    forall t, e | known(t)
      ensures known(happens(t, e))
    {
      HappeningKeeps(opener, seal, plan, keyId, ran, t, e);
    }
    KeptAfter(happens, known, s, happenings);
    var end := After(happens, s, happenings);
    var ranks: Ranks, top: nat, done: seq<nat> :| Holds(plan, keyId, ran, end, ranks, top, done);
    assert TellsTheTruth(plan, ran, end, done);
  }
}
