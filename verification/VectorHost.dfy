/**
 The host side of a relay session: which calls it runs, under which challenge, and
 what its counters promise, for any frames the network delivers.
 */
module VectorHost {
  import opened Common
  import Frames
  import opened RelayCrypto

  const LAST_COUNTER: nat := 0xffff_ffff_ffff_ffff

  type challenge = bytes

  type uint32 = x: nat | x < TWO_32

  datatype Plaintext = Hello | Call(id: int, command: string) | Answer(id: int, command: string) | Other

  /** What opening a frame authenticates besides its plaintext. */
  datatype SealedHeader = SealedHeader(keyId: uint32, ctr: nat, challenge: Option<challenge>)

  /**
   A wire frame as the host decodes it. A text field that is no base64 is `None`
   inside; a `from` or a `to` is only ever asked for its absence.
   */
  datatype Wire = Wire(
    v: int, hasFrom: bool, hasTo: bool, keyId: uint32, ctr: nat,
    challenge: Option<Option<challenge>>, ct: Option<bytes>, sig: Option<bytes>)

  /** The opening of a frame under the phone's key, past the replay rule. */
  type Opener = (SealedHeader, bytes, bytes) -> Option<Plaintext>

  /** The fields of the actor. */
  datatype Host = Host(
    draws: seq<challenge>, held: Option<challenge>, restarts: int, holdsHello: bool,
    lastAccepted: nat, ctr: nat, ran: seq<string>)

  /** What the host did, in order: its two streams, and its changes of challenge. */
  datatype Entry =
    | Heard(ctr: nat, challenge: Option<challenge>, plaintext: Plaintext)
    | Installed(value: challenge, isNew: bool)
    | Forgot
    | Ran(ctr: nat, under: challenge, command: string)
    | Pushed(ctr: nat, plaintext: Plaintext, shown: Option<challenge>)

  /** A call returned, threw, or trapped on the overflow of the 64-bit counter. */
  datatype Outcome = Done | Threw | Trapped

  datatype Effect = Effect(host: Host, outcome: Outcome, entries: seq<Entry>)

  function Then(entries: seq<Entry>, e: Effect): Effect { e.(entries := entries + e.entries) }

  /** A header exists below the counter limit, for no challenge or for one of 32 bytes. */
  predicate HasHeader(ctr: nat, c: Option<challenge>) { ctr < COUNTER_LIMIT && (c.Some? ==> |c.value| == 32) }

  // -------------------------------------------------------------------- transitions

  /** `push`: the challenge of a hello is held and the counter raised before the header can fail. */
  function Push(h: Host, plaintext: Plaintext, c: Option<challenge>, onTheWire: Option<challenge>, isNew: bool): Effect {
    var installs := plaintext == Hello && onTheWire.None?;
    var h1 := if installs then h.(held := c) else h;
    var entries := if installs && c.Some? then [Installed(c.value, isNew)] else [];
    if h.ctr >= LAST_COUNTER then Effect(h1, Trapped, entries)
    else
      var h2 := h1.(ctr := h.ctr + 1);
      if !HasHeader(h2.ctr, c) then Effect(h2, Threw, entries)
      else Effect(h2, Done, entries + [Pushed(h2.ctr, plaintext, if onTheWire.Some? then onTheWire else c)])
  }

  /** A hello with the next draw; an empty supply throws before anything changes. */
  function HelloDrawn(h: Host): Effect {
    if h.draws == [] then Effect(h, Threw, [])
    else Push(h.(draws := h.draws[1..]), Hello, Some(h.draws[0]), None, true)
  }

  /** The hello that answers a call under another challenge than the held one. */
  function Refuse(h: Host): Effect {
    if h.held.Some? then Push(h, Hello, h.held, None, false) else HelloDrawn(h)
  }

  /** A restart taken by a call: the challenge is forgotten, so the call is refused. */
  function TakeRestart(h: Host): Effect {
    Then([Forgot], Refuse(h.(restarts := h.restarts - 1, held := None)))
  }

  function RunCall(h: Host, ctr: nat, under: challenge, id: int, command: string): Effect {
    Then([Ran(ctr, under, command)],
      Push(h.(ran := h.ran + [command]), Answer(id, command), None, None, false))
  }

  /** A frame the host accepted: a hello is answered, a call runs or is refused. */
  function Handle(h: Host, ctr: nat, c: Option<challenge>, plaintext: Plaintext): Effect {
    if plaintext == Hello then
      if h.holdsHello then Effect(h, Done, []) else HelloDrawn(h)
    else if h.restarts > 0 then TakeRestart(h)
    else if h.held.None? || c != h.held then Refuse(h)
    else if !plaintext.Call? then Effect(h, Threw, [])
    else RunCall(h, ctr, h.held.value, plaintext.id, plaintext.command)
  }

  /** The plaintext of a frame the host accepts, if it does. */
  function Accepts(opener: Opener, h: Host, w: Option<Wire>): Option<Plaintext> {
    if w.None? then None
    else
      var f := w.value;
      if f.v != 2 || f.hasFrom || f.hasTo then None
      else if f.challenge.Some? && f.challenge.value.None? then None
      else if !HasHeader(f.ctr, Carried(f)) || f.ct.None? || f.sig.None? then None
      else if f.ctr <= h.lastAccepted then None
      else opener(SealedHeader(f.keyId, f.ctr, Carried(f)), f.ct.value, f.sig.value)
  }

  /** The challenge a frame carries. */
  function Carried(f: Wire): Option<challenge> {
    if f.challenge.Some? then f.challenge.value else None
  }

  /** `send`; a text that is no frame at all is `None`. */
  function Receive(opener: Opener, h: Host, w: Option<Wire>): Effect {
    match Accepts(opener, h, w)
    case None => Effect(h, Threw, [])
    case Some(plaintext) => Hear(h, w.value.ctr, Carried(w.value), plaintext)
  }

  /** A frame the host accepts moves its counter, and is reported before it is handled. */
  function Hear(h: Host, ctr: nat, c: Option<challenge>, plaintext: Plaintext): Effect {
    Then([Heard(ctr, c, plaintext)], Handle(h.(lastAccepted := ctr), ctr, c, plaintext))
  }

  datatype Event =
    | Send(wire: Option<Wire>)
    | Restarts(calls: int)
    | AnswerTheHello
    | HelloWith(value: challenge, onTheWire: Option<challenge>)

  function Step(opener: Opener, h: Host, event: Event): Effect {
    match event
    case Send(w) => Receive(opener, h, w)
    case Restarts(calls) => Effect(h.(restarts := calls), Done, [])
    case AnswerTheHello => HelloDrawn(h.(holdsHello := false))
    case HelloWith(c, onTheWire) => Push(h, Hello, Some(c), onTheWire, true)
  }

  function Steps(opener: Opener): (Host, Event) -> Effect {
    (h, event) => Step(opener, h, event)
  }

  /** Everything a host does over a run; a trap ends it. */
  function RunWith(step: (Host, Event) -> Effect, h: Host, events: seq<Event>): Effect
    decreases |events|
  {
    if events == [] then Effect(h, Done, [])
    else
      var e := step(h, events[0]);
      if e.outcome == Trapped then e else Then(e.entries, RunWith(step, e.host, events[1..]))
  }

  function Run(opener: Opener, h: Host, events: seq<Event>): Effect {
    RunWith(Steps(opener), h, events)
  }

  // ------------------------------------------------------------------------- actor

  class VectorHost {
    const opener: Opener
    var draws: seq<challenge>
    var held: Option<challenge>
    var restartsBeforeCalls: int
    var holdsHello: bool
    var lastAccepted: nat
    var ctr: nat
    var ran: seq<string>
    ghost var log: seq<Entry>

    function Now(): Host
      reads this
    {
      Host(draws, held, restartsBeforeCalls, holdsHello, lastAccepted, ctr, ran)
    }

    /** The actor went through an effect: new fields, and a log that only grew by it. */
    twostate predicate Did(e: Effect, outcome: Outcome)
      reads this
    {
      Now() == e.host && outcome == e.outcome && log == old(log) + e.entries
    }

    constructor (opener: Opener, draws: seq<challenge>, holdsHello: bool, lastCtr: nat)
      ensures this.opener == opener && log == []
      ensures Now() == Host(draws, None, 0, holdsHello, 0, lastCtr, [])
    {
      this.opener := opener;
      this.draws := draws;
      this.holdsHello := holdsHello;
      held, restartsBeforeCalls, lastAccepted, ctr, ran, log := None, 0, 0, lastCtr, [], [];
    }

    method Restarts(calls: int)
      modifies this
      ensures Did(Step(opener, old(Now()), Event.Restarts(calls)), Done)
    {
      restartsBeforeCalls := calls;
    }

    method AnswerTheHello() returns (outcome: Outcome)
      modifies this
      ensures Did(Step(opener, old(Now()), Event.AnswerTheHello), outcome)
    {
      holdsHello := false;
      outcome := HelloWithDraw();
    }

    method Hello(c: challenge, onTheWire: Option<challenge>) returns (outcome: Outcome)
      modifies this
      ensures Did(Step(opener, old(Now()), HelloWith(c, onTheWire)), outcome)
    {
      outcome := PushFrame(Plaintext.Hello, Some(c), onTheWire, true);
    }

    method HelloWithDraw() returns (outcome: Outcome)
      modifies this
      ensures Did(HelloDrawn(old(Now())), outcome)
    {
      var c := Draw();
      if c.None? {
        return Threw;
      }
      outcome := PushFrame(Plaintext.Hello, c, None, true);
    }

    method Draw() returns (c: Option<challenge>)
      modifies `draws
      ensures old(draws) == [] ==> c == None && draws == []
      ensures old(draws) != [] ==> c == Some(old(draws)[0]) && draws == old(draws)[1..]
    {
      if draws == [] {
        return None;
      }
      c := Some(draws[0]);
      draws := draws[1..];
    }

    method PushFrame(plaintext: Plaintext, c: Option<challenge>, onTheWire: Option<challenge>, ghost isNew: bool)
      returns (outcome: Outcome)
      modifies this
      ensures Did(Push(old(Now()), plaintext, c, onTheWire, isNew), outcome)
    {
      if plaintext == Plaintext.Hello && onTheWire.None? {
        held := c;
        if c.Some? {
          log := log + [Installed(c.value, isNew)];
        }
      }
      if ctr >= LAST_COUNTER {
        return Trapped;
      }
      ctr := ctr + 1;
      if !HasHeader(ctr, c) {
        return Threw;
      }
      log := log + [Pushed(ctr, plaintext, if onTheWire.Some? then onTheWire else c)];
      outcome := Done;
    }

    method Send(w: Option<Wire>) returns (outcome: Outcome)
      modifies this
      ensures Did(Receive(opener, old(Now()), w), outcome)
    {
      var unsealed := Accepts(opener, Now(), w);
      if unsealed.None? {
        return Threw;
      }
      outcome := HearFrame(w.value.ctr, Carried(w.value), unsealed.value);
    }

    method HearFrame(ctr: nat, c: Option<challenge>, plaintext: Plaintext) returns (outcome: Outcome)
      modifies this
      ensures Did(Hear(old(Now()), ctr, c, plaintext), outcome)
    {
      lastAccepted := ctr;
      log := log + [Heard(ctr, c, plaintext)];
      ghost var e := Handle(Now(), ctr, c, plaintext);
      outcome := HandleFrame(ctr, c, plaintext);
      Associates(old(log), [Heard(ctr, c, plaintext)], e.entries);
    }

    /** `send`, once the frame is accepted and reported. */
    method HandleFrame(ctr: nat, c: Option<challenge>, plaintext: Plaintext) returns (outcome: Outcome)
      modifies this
      ensures Did(Handle(old(Now()), ctr, c, plaintext), outcome)
    {
      if plaintext == Plaintext.Hello {
        if !holdsHello {
          outcome := HelloWithDraw();
          return;
        }
        return Done;
      }
      if restartsBeforeCalls > 0 {
        restartsBeforeCalls := restartsBeforeCalls - 1;
        held := None;
        log := log + [Forgot];
      }
      if held.None? || c != held {
        outcome := RefuseCall();
        return;
      }
      if !plaintext.Call? {
        return Threw;
      }
      outcome := RunHeld(ctr, plaintext.id, plaintext.command);
    }

    method RunHeld(ctr: nat, id: int, command: string) returns (outcome: Outcome)
      requires held.Some?
      modifies this
      ensures Did(RunCall(old(Now()), ctr, old(held).value, id, command), outcome)
    {
      ran := ran + [command];
      log := log + [Ran(ctr, held.value, command)];
      outcome := PushFrame(Answer(id, command), None, None, false);
    }

    method RefuseCall() returns (outcome: Outcome)
      modifies this
      ensures Did(Refuse(old(Now())), outcome)
    {
      if held.Some? {
        outcome := PushFrame(Plaintext.Hello, held, None, false);
      } else {
        outcome := HelloWithDraw();
      }
    }
  }

  // --------------------------------------------------------- what every log obeys

  /** The challenge in force: the last one installed, unless forgotten since. */
  function Current(start: Host, log: seq<Entry>): Option<challenge> {
    if log == [] then start.held
    else
      match log[|log| - 1]
      case Installed(c, _) => Some(c)
      case Forgot => None
      case _ => Current(start, log[..|log| - 1])
  }

  function LastHeard(start: Host, log: seq<Entry>): nat {
    if log == [] then start.lastAccepted
    else if log[|log| - 1].Heard? then log[|log| - 1].ctr
    else LastHeard(start, log[..|log| - 1])
  }

  function LastPushed(start: Host, log: seq<Entry>): nat {
    if log == [] then start.ctr
    else if log[|log| - 1].Pushed? then log[|log| - 1].ctr
    else LastPushed(start, log[..|log| - 1])
  }

  /** A call that runs was heard just before, and carried the challenge in force. */
  predicate RunsWhatWasHeard(start: Host, log: seq<Entry>, e: Entry)
    requires e.Ran?
  {
    && Current(start, log) == Some(e.under)
    && log != []
    && var heard := log[|log| - 1];
       heard.Heard? && heard.ctr == e.ctr && heard.challenge == Some(e.under)
       && heard.plaintext.Call? && heard.plaintext.command == e.command
  }

  /** The entries that may come next. */
  predicate MayFollow(start: Host, log: seq<Entry>, e: Entry) {
    match e
    case Heard(ctr, _, _) => LastHeard(start, log) < ctr < COUNTER_LIMIT
    case Pushed(ctr, _, _) => LastPushed(start, log) < ctr < COUNTER_LIMIT
    case Installed(c, isNew) => isNew || Current(start, log) == Some(c)
    case Forgot => true
    case Ran(_, _, _) => RunsWhatWasHeard(start, log, e)
  }

  predicate IsLog(start: Host, log: seq<Entry>) {
    log == [] || (IsLog(start, log[..|log| - 1]) && MayFollow(start, log[..|log| - 1], log[|log| - 1]))
  }

  /** The log obeys the rules and the fields of the host are what it says. */
  ghost predicate Tracks(start: Host, log: seq<Entry>, h: Host) {
    && IsLog(start, log)
    && h.held == Current(start, log)
    && h.lastAccepted == LastHeard(start, log)
    && h.ctr >= LastPushed(start, log)
  }

  /** The fields of a host after an entry, given those before it. */
  predicate Applied(h: Host, e: Entry, after: Host) {
    && after.held == (match e case Installed(c, _) => Some(c) case Forgot => None case _ => h.held)
    && after.lastAccepted == (if e.Heard? then e.ctr else h.lastAccepted)
    && after.ctr >= h.ctr && (e.Pushed? ==> after.ctr >= e.ctr)
  }

  lemma EntryTracks(start: Host, log: seq<Entry>, h: Host, e: Entry, after: Host)
    requires Tracks(start, log, h) && MayFollow(start, log, e) && Applied(h, e, after)
    ensures Tracks(start, log + [e], after)
  {
    assert (log + [e])[..|log|] == log;
  }

  lemma PushTracks(start: Host, log: seq<Entry>, h: Host,
      plaintext: Plaintext, c: Option<challenge>, onTheWire: Option<challenge>, isNew: bool)
    requires Tracks(start, log, h)
    requires plaintext == Hello ==> c.Some? && (isNew || c == h.held)
    ensures var e := Push(h, plaintext, c, onTheWire, isNew);
            Tracks(start, log + e.entries, e.host)
  {
    var e := Push(h, plaintext, c, onTheWire, isNew);
    var log1, h1 := log, h;
    if plaintext == Hello && onTheWire.None? {
      var installed := Installed(c.value, isNew);
      h1 := h.(held := c);
      EntryTracks(start, log, h, installed, h1);
      log1 := log + [installed];
    }
    assert Tracks(start, log1, h1);
    if e.outcome == Done {
      var pushed := Pushed(h.ctr + 1, plaintext, if onTheWire.Some? then onTheWire else c);
      EntryTracks(start, log1, h1, pushed, e.host);
      assert log + e.entries == log1 + [pushed];
    } else {
      assert log + e.entries == log1;
    }
  }

  lemma HelloDrawnTracks(start: Host, log: seq<Entry>, h: Host)
    requires Tracks(start, log, h)
    ensures Tracks(start, log + HelloDrawn(h).entries, HelloDrawn(h).host)
  {
    if h.draws == [] {
      assert log + [] == log;
    } else {
      PushTracks(start, log, h.(draws := h.draws[1..]), Hello, Some(h.draws[0]), None, true);
    }
  }

  lemma RefuseTracks(start: Host, log: seq<Entry>, h: Host)
    requires Tracks(start, log, h)
    ensures Tracks(start, log + Refuse(h).entries, Refuse(h).host)
  {
    if h.held.Some? {
      PushTracks(start, log, h, Hello, h.held, None, false);
    } else {
      HelloDrawnTracks(start, log, h);
    }
  }

  lemma ThenTracks(start: Host, log: seq<Entry>, entry: Entry, e: Effect)
    requires Tracks(start, log + [entry] + e.entries, e.host)
    ensures Tracks(start, log + Then([entry], e).entries, Then([entry], e).host)
  {
    assert log + ([entry] + e.entries) == log + [entry] + e.entries;
  }

  lemma TakeRestartTracks(start: Host, log: seq<Entry>, h: Host)
    requires Tracks(start, log, h)
    ensures Tracks(start, log + TakeRestart(h).entries, TakeRestart(h).host)
  {
    var h1 := h.(restarts := h.restarts - 1, held := None);
    EntryTracks(start, log, h, Forgot, h1);
    RefuseTracks(start, log + [Forgot], h1);
    ThenTracks(start, log, Forgot, Refuse(h1));
  }

  lemma RunCallTracks(start: Host, log: seq<Entry>, h: Host, ctr: nat, under: challenge, id: int, command: string)
    requires Tracks(start, log, h) && h.held == Some(under)
    requires log != [] && log[|log| - 1] == Heard(ctr, Some(under), Call(id, command))
    ensures var e := RunCall(h, ctr, under, id, command);
            Tracks(start, log + e.entries, e.host)
  {
    var ran := Ran(ctr, under, command);
    var h1 := h.(ran := h.ran + [command]);
    EntryTracks(start, log, h, ran, h1);
    PushTracks(start, log + [ran], h1, Answer(id, command), None, None, false);
    ThenTracks(start, log, ran, Push(h1, Answer(id, command), None, None, false));
  }

  lemma HandleTracks(start: Host, log: seq<Entry>, h: Host, ctr: nat, c: Option<challenge>, plaintext: Plaintext)
    requires Tracks(start, log, h)
    requires log != [] && log[|log| - 1] == Heard(ctr, c, plaintext)
    ensures var e := Handle(h, ctr, c, plaintext);
            Tracks(start, log + e.entries, e.host)
  {
    assert log + [] == log;
    if plaintext == Hello {
      HelloDrawnTracks(start, log, h);
    } else if h.restarts > 0 {
      TakeRestartTracks(start, log, h);
    } else if h.held.None? || c != h.held {
      RefuseTracks(start, log, h);
    } else if plaintext.Call? {
      RunCallTracks(start, log, h, ctr, h.held.value, plaintext.id, plaintext.command);
    }
  }

  lemma ReceiveTracks(opener: Opener, start: Host, log: seq<Entry>, h: Host, w: Option<Wire>)
    requires Tracks(start, log, h)
    ensures var e := Receive(opener, h, w);
            Tracks(start, log + e.entries, e.host)
  {
    var unsealed := Accepts(opener, h, w);
    if unsealed.None? {
      assert log + [] == log;
    } else {
      var ctr, c := w.value.ctr, Carried(w.value);
      var heard := Heard(ctr, c, unsealed.value);
      var h1 := h.(lastAccepted := ctr);
      EntryTracks(start, log, h, heard, h1);
      HandleTracks(start, log + [heard], h1, ctr, c, unsealed.value);
      ThenTracks(start, log, heard, Handle(h1, ctr, c, unsealed.value));
    }
  }

  lemma StepTracks(opener: Opener, start: Host, log: seq<Entry>, h: Host, event: Event)
    requires Tracks(start, log, h)
    ensures var e := Step(opener, h, event);
            Tracks(start, log + e.entries, e.host)
  {
    var e := Step(opener, h, event);
    match event {
      case Send(w) =>
        ReceiveTracks(opener, start, log, h, w);
      case Restarts(calls) =>
        assert log + [] == log;
      case AnswerTheHello =>
        HelloDrawnTracks(start, log, h.(holdsHello := false));
      case HelloWith(c, onTheWire) =>
        PushTracks(start, log, h, Hello, Some(c), onTheWire, true);
    }
  }

  ghost predicate KeepsTrack(step: (Host, Event) -> Effect, start: Host) {
    forall log, h, event :: Tracks(start, log, h) ==>
      Tracks(start, log + step(h, event).entries, step(h, event).host)
  }

  lemma {:induction false} RunTracksFrom(step: (Host, Event) -> Effect, start: Host, log: seq<Entry>, h: Host,
      events: seq<Event>)
    requires KeepsTrack(step, start) && Tracks(start, log, h)
    ensures var e := RunWith(step, h, events);
            Tracks(start, log + e.entries, e.host)
    decreases |events|
  {
    if events == [] {
      assert log + [] == log;
    } else {
      var e := step(h, events[0]);
      if e.outcome != Trapped {
        RunTracksFrom(step, start, log + e.entries, e.host, events[1..]);
        var rest := RunWith(step, e.host, events[1..]).entries;
        assert log + (e.entries + rest) == log + e.entries + rest;
      }
    }
  }

  /** Over every run of arbitrary events the log obeys the rules. */
  lemma RunTracks(opener: Opener, h: Host, events: seq<Event>)
    ensures var e := Run(opener, h, events);
            Tracks(h, e.entries, e.host)
  {
    var step := Steps(opener);
    forall log, g, event | Tracks(h, log, g)
      ensures Tracks(h, log + step(g, event).entries, step(g, event).host)
    {
      StepTracks(opener, h, log, g, event);
    }
    RunTracksFrom(step, h, [], h, events);
    var e := Run(opener, h, events);
    assert [] + e.entries == e.entries;
  }

  // ---------------------------------------------------------------------- theorems

  predicate ChangesChallenge(e: Entry) { e.Installed? || e.Forgot? }

  lemma {:induction false} CurrentIsLatest(start: Host, log: seq<Entry>) returns (j: int)
    requires Current(start, log).Some?
    ensures -1 <= j < |log|
    ensures j == -1 ==> Current(start, log) == start.held
    ensures j >= 0 ==> log[j].Installed? && Some(log[j].value) == Current(start, log)
    ensures forall k :: j < k < |log| ==> !ChangesChallenge(log[k])
    decreases |log|
  {
    if log == [] {
      j := -1;
    } else if log[|log| - 1].Installed? {
      j := |log| - 1;
    } else {
      j := CurrentIsLatest(start, log[..|log| - 1]);
    }
  }

  lemma RanUnderTheLatest(start: Host, log: seq<Entry>, i: nat) returns (j: int)
    requires IsLog(start, log) && start.held == None && i < |log| && log[i].Ran?
    ensures 0 <= j < i && log[j].Installed? && log[j].value == log[i].under
    ensures forall k :: j < k < i ==> !ChangesChallenge(log[k])
    ensures log[i - 1].Heard? && log[i - 1].ctr == log[i].ctr && log[i - 1].challenge == Some(log[i].under)
  {
    var before := log[..i];
    EntryFollows(start, log, i);
    j := CurrentIsLatest(start, before);
    assert before[j] == log[j] && before[i - 1] == log[i - 1];
    forall k | j < k < i
      ensures !ChangesChallenge(log[k])
    {
      assert before[k] == log[k];
    }
  }

  /**
   A call runs only under the challenge of the latest hello the host installed, with
   no restart since, and only as a frame it has just accepted under that challenge.
   */
  lemma RunsUnderTheLatestHello(opener: Opener, h: Host, events: seq<Event>, i: nat) returns (j: int)
    requires h.held == None
    requires i < |Run(opener, h, events).entries| && Run(opener, h, events).entries[i].Ran?
    ensures var log := Run(opener, h, events).entries;
            && 0 <= j < i
            && log[j].Installed? && log[j].value == log[i].under
            && (forall k :: j < k < i ==> !ChangesChallenge(log[k]))
            && log[i - 1].Heard? && log[i - 1].ctr == log[i].ctr && log[i - 1].challenge == Some(log[i].under)
  {
    RunTracks(opener, h, events);
    j := RanUnderTheLatest(h, Run(opener, h, events).entries, i);
  }

  /** Every entry of a log follows the entries before it, which are a log. */
  lemma {:induction false} EntryFollows(start: Host, log: seq<Entry>, i: nat)
    requires IsLog(start, log) && i < |log|
    ensures IsLog(start, log[..i]) && MayFollow(start, log[..i], log[i])
    decreases |log|
  {
    if i < |log| - 1 {
      EntryFollows(start, log[..|log| - 1], i);
      assert log[..|log| - 1][..i] == log[..i];
    }
  }

  lemma {:induction false} CurrentIsRecent(start: Host, log: seq<Entry>, j: nat) returns (m: nat)
    requires IsLog(start, log) && j < |log|
    requires log[j] == Forgot || (log[j].Installed? && log[j].isNew)
    requires Current(start, log).Some?
    ensures j <= m < |log| && log[m].Installed? && log[m].isNew && Some(log[m].value) == Current(start, log)
    decreases |log|
  {
    var last, front := log[|log| - 1], log[..|log| - 1];
    if last.Installed? && last.isNew {
      m := |log| - 1;
    } else {
      m := CurrentIsRecent(start, front, j);
    }
  }

  /** No challenge is introduced twice: by a draw, or by a hello made with it. */
  ghost predicate IntroducesOnce(log: seq<Entry>) {
    forall a, b :: 0 <= a < b < |log| && log[a].Installed? && log[a].isNew && log[b].Installed? && log[b].isNew ==>
      log[a].value != log[b].value
  }

  /**
   Once a restart or a newer challenge came, no frame sealed under an earlier one
   ever runs again, however the network replays or reorders frames.
   */
  lemma StaleChallengesNeverRun(opener: Opener, h: Host, events: seq<Event>, i: nat, j: nat, k: nat)
    requires IntroducesOnce(Run(opener, h, events).entries)
    requires i < j < k < |Run(opener, h, events).entries|
    requires var log := Run(opener, h, events).entries;
             && log[i].Installed? && log[i].isNew
             && (log[j] == Forgot || (log[j].Installed? && log[j].isNew))
             && log[k].Ran?
    ensures var log := Run(opener, h, events).entries;
            log[k].under != log[i].value
  {
    RunTracks(opener, h, events);
    var log := Run(opener, h, events).entries;
    var before := log[..k];
    EntryFollows(h, log, k);
    var m := CurrentIsRecent(h, before, j);
    assert before[m] == log[m];
  }

  // ---------------------------------------------------------------------- counters

  lemma {:induction false} HeardBelow(start: Host, log: seq<Entry>, i: nat)
    requires IsLog(start, log) && i < |log| && log[i].Heard?
    ensures start.lastAccepted < log[i].ctr <= LastHeard(start, log)
    ensures start.lastAccepted <= LastHeard(start, log[..i])
    decreases |log|
  {
    EntryFollows(start, log, i);
    HeardFloor(start, log[..i]);
    if i < |log| - 1 {
      var front := log[..|log| - 1];
      HeardBelow(start, front, i);
      assert front[..i] == log[..i];
    }
  }

  lemma {:induction false} HeardFloor(start: Host, log: seq<Entry>)
    requires IsLog(start, log)
    ensures start.lastAccepted <= LastHeard(start, log)
    decreases |log|
  {
    if log != [] {
      HeardFloor(start, log[..|log| - 1]);
    }
  }

  lemma {:induction false} PushedBelow(start: Host, log: seq<Entry>, i: nat)
    requires IsLog(start, log) && i < |log| && log[i].Pushed?
    ensures log[i].ctr <= LastPushed(start, log)
    decreases |log|
  {
    if i < |log| - 1 {
      var front := log[..|log| - 1];
      PushedBelow(start, front, i);
    }
  }

  lemma HeardGrows(start: Host, log: seq<Entry>, i: nat, j: nat)
    requires IsLog(start, log) && i < j < |log| && log[i].Heard? && log[j].Heard?
    ensures log[i].ctr < log[j].ctr
  {
    EntryFollows(start, log, j);
    HeardBelow(start, log[..j], i);
  }

  lemma PushedGrows(start: Host, log: seq<Entry>, i: nat, j: nat)
    requires IsLog(start, log) && i < j < |log| && log[i].Pushed? && log[j].Pushed?
    ensures log[i].ctr < log[j].ctr < COUNTER_LIMIT
  {
    EntryFollows(start, log, j);
    PushedBelow(start, log[..j], i);
  }

  lemma RanGrows(start: Host, log: seq<Entry>, i: nat, j: nat)
    requires IsLog(start, log) && i < j < |log| && log[i].Ran? && log[j].Ran?
    ensures log[i].ctr < log[j].ctr
  {
    EntryFollows(start, log, i);
    EntryFollows(start, log, j);
    assert log[..i][i - 1] == log[i - 1] && log[..j][j - 1] == log[j - 1];
    HeardGrows(start, log, i - 1, j - 1);
  }

  /**
   Over every run accepted counters strictly increase, past the one the host started
   from; so do those of the calls that ran: no frame runs twice, however replayed.
   */
  lemma NoFrameRunsTwice(opener: Opener, h: Host, events: seq<Event>, i: nat, j: nat)
    requires i < j < |Run(opener, h, events).entries|
    ensures var log := Run(opener, h, events).entries;
            && (log[i].Heard? && log[j].Heard? ==> h.lastAccepted < log[i].ctr < log[j].ctr)
            && (log[i].Ran? && log[j].Ran? ==> log[i].ctr < log[j].ctr)
  {
    RunTracks(opener, h, events);
    var log := Run(opener, h, events).entries;
    if log[i].Heard? && log[j].Heard? {
      HeardGrows(h, log, i, j);
      HeardBelow(h, log, i);
    }
    if log[i].Ran? && log[j].Ran? {
      RanGrows(h, log, i, j);
    }
  }

  /** No two frames the host pushes over a run are sealed under the same nonce. */
  lemma NoncesNeverRepeat(opener: Opener, h: Host, events: seq<Event>, i: nat, j: nat)
    requires i < j < |Run(opener, h, events).entries|
    requires var log := Run(opener, h, events).entries;
             log[i].Pushed? && log[j].Pushed?
    ensures var log := Run(opener, h, events).entries;
            log[i].ctr < log[j].ctr && Frames.Nonce(log[i].ctr) != Frames.Nonce(log[j].ctr)
  {
    RunTracks(opener, h, events);
    var log := Run(opener, h, events).entries;
    PushedGrows(h, log, i, j);
    Frames.NonceInjective(log[i].ctr, log[j].ctr);
  }

  // ------------------------------------------------------------------------- draws

  /** The challenges introduced, in order. */
  function NewChallenges(log: seq<Entry>): seq<challenge> {
    if log == [] then []
    else
      var last, front := log[|log| - 1], NewChallenges(log[..|log| - 1]);
      if last.Installed? && last.isNew then front + [last.value] else front
  }

  lemma {:induction false} NewChallengesAppend(a: seq<Entry>, b: seq<Entry>)
    ensures NewChallenges(a + b) == NewChallenges(a) + NewChallenges(b)
    decreases |b|
  {
    if b == [] {
      assert a + b == a;
    } else {
      assert (a + b)[..|a + b| - 1] == a + b[..|b| - 1];
      NewChallengesAppend(a, b[..|b| - 1]);
    }
  }

  /** An effect that introduced exactly the draws it took. */
  predicate SpendsDraws(draws: seq<challenge>, e: Effect) {
    NewChallenges(e.entries) + e.host.draws == draws
  }

  /** An event that brings no challenge of its own to hold. */
  predicate BringsNone(event: Event) { event.HelloWith? ==> event.onTheWire.Some? }

  lemma PushSpends(h: Host, plaintext: Plaintext, c: Option<challenge>, onTheWire: Option<challenge>, isNew: bool)
    ensures var e := Push(h, plaintext, c, onTheWire, isNew);
            && e.host.draws == h.draws
            && NewChallenges(e.entries)
            == if plaintext == Hello && onTheWire.None? && c.Some? && isNew then [c.value] else []
  {
    var e := Push(h, plaintext, c, onTheWire, isNew);
    if plaintext == Hello && onTheWire.None? && c.Some? {
      var installed := Installed(c.value, isNew);
      assert NewChallenges([installed]) == if isNew then [c.value] else [] by {
        assert [installed][..0] == [];
      }
      if e.outcome == Done {
        NewChallengesAppend([installed], [e.entries[1]]);
        assert e.entries == [installed] + [e.entries[1]];
        assert [e.entries[1]][..0] == [];
      }
    } else if e.outcome == Done {
      assert e.entries[..0] == [];
    }
  }

  lemma ThenSpends(draws: seq<challenge>, entry: Entry, e: Effect)
    requires SpendsDraws(draws, e) && !(entry.Installed? && entry.isNew)
    ensures SpendsDraws(draws, Then([entry], e))
  {
    NewChallengesAppend([entry], e.entries);
    assert [entry][..0] == [];
  }

  lemma RefuseSpends(h: Host)
    ensures SpendsDraws(h.draws, HelloDrawn(h)) && SpendsDraws(h.draws, Refuse(h))
  {
    PushSpends(h, Hello, h.held, None, false);
    if h.draws != [] {
      PushSpends(h.(draws := h.draws[1..]), Hello, Some(h.draws[0]), None, true);
    }
  }

  lemma TakeRestartSpends(h: Host)
    ensures SpendsDraws(h.draws, TakeRestart(h))
  {
    var h1 := h.(restarts := h.restarts - 1, held := None);
    RefuseSpends(h1);
    ThenSpends(h.draws, Forgot, Refuse(h1));
  }

  lemma RunCallSpends(h: Host, ctr: nat, under: challenge, id: int, command: string)
    ensures SpendsDraws(h.draws, RunCall(h, ctr, under, id, command))
  {
    var h1 := h.(ran := h.ran + [command]);
    PushSpends(h1, Answer(id, command), None, None, false);
    ThenSpends(h.draws, Ran(ctr, under, command), Push(h1, Answer(id, command), None, None, false));
  }

  lemma HandleSpends(h: Host, ctr: nat, c: Option<challenge>, plaintext: Plaintext)
    ensures SpendsDraws(h.draws, Handle(h, ctr, c, plaintext))
  {
    if plaintext == Hello {
      RefuseSpends(h);
    } else if h.restarts > 0 {
      TakeRestartSpends(h);
    } else if h.held.None? || c != h.held {
      RefuseSpends(h);
    } else if plaintext.Call? {
      RunCallSpends(h, ctr, h.held.value, plaintext.id, plaintext.command);
    }
  }

  lemma StepSpends(opener: Opener, h: Host, event: Event)
    requires BringsNone(event)
    ensures SpendsDraws(h.draws, Step(opener, h, event))
  {
    match event {
      case Send(w) =>
        var unsealed := Accepts(opener, h, w);
        if unsealed.Some? {
          var ctr, c := w.value.ctr, Carried(w.value);
          var h1 := h.(lastAccepted := ctr);
          HandleSpends(h1, ctr, c, unsealed.value);
          ThenSpends(h1.draws, Heard(ctr, c, unsealed.value), Handle(h1, ctr, c, unsealed.value));
        }
      case Restarts(_) =>
      case AnswerTheHello =>
        RefuseSpends(h.(holdsHello := false));
      case HelloWith(c, onTheWire) =>
        PushSpends(h, Hello, Some(c), onTheWire, true);
    }
  }

  ghost predicate SpendsAtEachStep(step: (Host, Event) -> Effect) {
    forall h: Host, event: Event :: BringsNone(event) ==> SpendsDraws(h.draws, step(h, event))
  }

  lemma {:induction false} RunSpendsDraws(step: (Host, Event) -> Effect, h: Host, events: seq<Event>)
    requires SpendsAtEachStep(step)
    requires forall i :: 0 <= i < |events| ==> BringsNone(events[i])
    ensures SpendsDraws(h.draws, RunWith(step, h, events))
    decreases |events|
  {
    if events != [] {
      var e := step(h, events[0]);
      assert BringsNone(events[0]);
      if e.outcome != Trapped {
        RunSpendsDraws(step, e.host, events[1..]);
        var rest := RunWith(step, e.host, events[1..]);
        NewChallengesAppend(e.entries, rest.entries);
        assert NewChallenges(e.entries) + (NewChallenges(rest.entries) + rest.host.draws) == h.draws;
      }
    }
  }

  lemma {:induction false} NewIsListed(log: seq<Entry>, i: nat)
    requires i < |log| && log[i].Installed? && log[i].isNew
    ensures log[i].value in NewChallenges(log)
    decreases |log|
  {
    if i < |log| - 1 {
      NewIsListed(log[..|log| - 1], i);
    }
  }

  /**
   The challenges a run introduces are the draws it took, in order: none is spent
   without being installed. So distinct draws are introduced once.
   */
  lemma DistinctDrawsIntroduceOnce(opener: Opener, h: Host, events: seq<Event>)
    requires forall i :: 0 <= i < |events| ==> BringsNone(events[i])
    ensures var e := Run(opener, h, events);
            NewChallenges(e.entries) + e.host.draws == h.draws
    ensures Distinct(h.draws) ==> IntroducesOnce(Run(opener, h, events).entries)
  {
    var step := Steps(opener);
    forall g: Host, event: Event | BringsNone(event)
      ensures SpendsDraws(g.draws, step(g, event))
    {
      StepSpends(opener, g, event);
    }
    RunSpendsDraws(step, h, events);
    var e := Run(opener, h, events);
    if Distinct(h.draws) {
      forall i, j | 0 <= i < |NewChallenges(e.entries)| && i < j < |NewChallenges(e.entries)|
        ensures NewChallenges(e.entries)[i] != NewChallenges(e.entries)[j]
      {
        assert h.draws[i] == NewChallenges(e.entries)[i] && h.draws[j] == NewChallenges(e.entries)[j];
      }
      DistinctNewIntroducesOnce(e.entries);
    }
  }

  /**
   With pairwise distinct draws, over every run of arbitrary frames no call runs under
   a challenge after a restart or a newer challenge.
   */
  lemma StaleDrawsNeverRun(opener: Opener, h: Host, events: seq<Event>, i: nat, j: nat, k: nat)
    requires Distinct(h.draws) && forall n :: 0 <= n < |events| ==> BringsNone(events[n])
    requires i < j < k < |Run(opener, h, events).entries|
    requires var log := Run(opener, h, events).entries;
             && log[i].Installed? && log[i].isNew
             && (log[j] == Forgot || (log[j].Installed? && log[j].isNew))
             && log[k].Ran?
    ensures var log := Run(opener, h, events).entries;
            log[k].under != log[i].value
  {
    DistinctDrawsIntroduceOnce(opener, h, events);
    StaleChallengesNeverRun(opener, h, events, i, j, k);
  }

  lemma PartsDiffer(before: seq<challenge>, after: seq<challenge>, c: challenge, d: challenge)
    requires Distinct(before + after) && c in before && d in after
    ensures c != d
  {
    var m :| 0 <= m < |before| && before[m] == c;
    var n :| 0 <= n < |after| && after[n] == d;
    assert (before + after)[m] != (before + after)[|before| + n];
  }

  lemma DistinctNewIntroducesOnce(log: seq<Entry>)
    requires Distinct(NewChallenges(log))
    ensures IntroducesOnce(log)
  {
    forall a, b | 0 <= a < b < |log| && log[a].Installed? && log[a].isNew && log[b].Installed? && log[b].isNew
      ensures log[a].value != log[b].value
    {
      NewChallengesAppend(log[..b], log[b..]);
      assert log == log[..b] + log[b..];
      NewIsListed(log[..b], a);
      NewIsListed(log[b..], 0);
      PartsDiffer(NewChallenges(log[..b]), NewChallenges(log[b..]), log[a].value, log[b].value);
    }
  }

  // ---------------------------------------------------------------------- progress

  /** A client that seals one call, under the counter and the challenge it is given. */
  ghost predicate SealsCall(opener: Opener, client: (nat, challenge) -> Wire, id: int, command: string) {
    forall ctr: nat, c: challenge :: ctr < COUNTER_LIMIT && |c| == 32 ==> IsCall(opener, client(ctr, c), ctr, c, id, command)
  }

  /** A frame that carries a call under a counter and a challenge. */
  predicate IsCall(opener: Opener, w: Wire, ctr: nat, c: challenge, id: int, command: string) {
    && w.v == 2 && !w.hasFrom && !w.hasTo && w.ctr == ctr && w.challenge == Some(Some(c))
    && w.ct.Some? && w.sig.Some?
    && opener(SealedHeader(w.keyId, ctr, Some(c)), w.ct.value, w.sig.value) == Some(Call(id, command))
  }

  /** The challenge of the hello that ends the answer, if one does. */
  function NextChallenge(entries: seq<Entry>, c: challenge): challenge {
    if entries == [] then c
    else
      match entries[|entries| - 1]
      case Pushed(_, Hello, Some(next)) => next
      case _ => c
  }

  /** The client sends its call once per counter, each time under the last hello's challenge. */
  function Resend(opener: Opener, h: Host, client: (nat, challenge) -> Wire, c: challenge, ctrs: seq<nat>): Host
    decreases |ctrs|
  {
    if ctrs == [] then h
    else
      var e := Receive(opener, h, Some(client(ctrs[0], c)));
      Resend(opener, e.host, client, NextChallenge(e.entries, c), ctrs[1..])
  }

  /** How many sends a call takes. */
  function Sends(h: Host, c: challenge): nat {
    if h.restarts > 0 then h.restarts + 1 else if h.held == Some(c) then 1 else 2
  }

  /** How many challenges are drawn for it: one per restart taken, or one for an empty hand. */
  function Drawn(h: Host): nat {
    if h.restarts > 0 then h.restarts else if h.held.None? then 1 else 0
  }

  /** Counters that headers exist for, each above those before it. */
  ghost predicate Increasing(ctrs: seq<nat>, above: nat) {
    && (forall i :: 0 <= i < |ctrs| ==> above < ctrs[i] < COUNTER_LIMIT)
    && (forall i, j :: 0 <= i < j < |ctrs| ==> ctrs[i] < ctrs[j])
  }

  /** Every challenge in play has 32 bytes, and none is drawn again. */
  ghost predicate AreFresh(h: Host, c: challenge) {
    && |c| == 32 && (h.held.Some? ==> |h.held.value| == 32)
    && (forall i :: 0 <= i < |h.draws| ==> |h.draws[i]| == 32)
    && Distinct(h.draws) && c !in h.draws && (h.held.Some? ==> h.held.value !in h.draws)
  }

  /** The host's counter has room for the hellos of that many refusals. */
  predicate HasRoom(h: Host, refusals: nat) { refusals == 0 || h.ctr + refusals < COUNTER_LIMIT }

  lemma AcceptsCall(opener: Opener, h: Host, client: (nat, challenge) -> Wire, c: challenge, ctr: nat,
      id: int, command: string)
    requires SealsCall(opener, client, id, command) && |c| == 32 && ctr < COUNTER_LIMIT
    ensures Accepts(opener, h, Some(client(ctr, c))) == if ctr <= h.lastAccepted then None else Some(Call(id, command))
    ensures client(ctr, c).ctr == ctr && Carried(client(ctr, c)) == Some(c)
  {
    assert IsCall(opener, client(ctr, c), ctr, c, id, command);
  }

  lemma DrawsStayFresh(h: Host, c: challenge, after: Host)
    requires AreFresh(h, c) && h.draws != []
    requires after.draws == h.draws[1..] && after.held == Some(h.draws[0])
    ensures AreFresh(after, h.draws[0]) && h.draws[0] != c
  {
    var d, rest := h.draws[0], h.draws[1..];
    forall i | 0 <= i < |rest|
      ensures rest[i] != d && |rest[i]| == 32
    {
      assert h.draws[i + 1] == rest[i];
    }
  }

  /** One refusal later: one send fewer to go, under a challenge the client was told. */
  ghost predicate IsCloser(h: Host, c: challenge, after: Host, next: challenge) {
    && |h.draws| >= Drawn(h)
    && AreFresh(after, next) && |after.draws| >= Drawn(after) && Sends(after, next) == Sends(h, c) - 1
    && after.held == Some(next) && next != c
    && after.lastAccepted == h.lastAccepted && after.ctr == h.ctr + 1 && after.ran == h.ran
    && Drawn(h) >= Drawn(after) && after.draws == h.draws[Drawn(h) - Drawn(after)..]
    && (h.restarts > 0 ==> after.restarts == h.restarts - 1) && (h.restarts <= 0 ==> after.restarts == h.restarts)
  }

  lemma Refuses(h: Host, c: challenge, ctr: nat, id: int, command: string)
    requires AreFresh(h, c) && |h.draws| >= Drawn(h) && Sends(h, c) > 1 && HasRoom(h, 1)
    ensures var e := Handle(h, ctr, Some(c), Call(id, command));
            var next := NextChallenge(e.entries, c);
            e.entries != [] && IsCloser(h, c, e.host, next)
  {
    var e := Handle(h, ctr, Some(c), Call(id, command));
    if h.restarts > 0 || h.held.None? {
      DrawsStayFresh(h, c, e.host);
    }
  }

  lemma HearsCall(opener: Opener, h: Host, client: (nat, challenge) -> Wire, c: challenge, ctr: nat,
      id: int, command: string, inner: Effect)
    requires SealsCall(opener, client, id, command) && |c| == 32 && h.lastAccepted < ctr < COUNTER_LIMIT
    requires inner == Handle(h.(lastAccepted := ctr), ctr, Some(c), Call(id, command))
    ensures Receive(opener, h, Some(client(ctr, c))) == Then([Heard(ctr, Some(c), Call(id, command))], inner)
    ensures NextChallenge(Then([Heard(ctr, Some(c), Call(id, command))], inner).entries, c)
            == NextChallenge(inner.entries, c)
  {
    AcceptsCall(opener, h, client, c, ctr, id, command);
  }

  /** A refusal with room for its hello leaves the host one send closer to running the call. */
  lemma RefusedOnce(opener: Opener, h: Host, client: (nat, challenge) -> Wire, c: challenge, ctr: nat,
      id: int, command: string)
    requires SealsCall(opener, client, id, command) && AreFresh(h, c) && |h.draws| >= Drawn(h)
    requires h.lastAccepted < ctr < COUNTER_LIMIT && Sends(h, c) > 1 && HasRoom(h, 1)
    ensures var e := Receive(opener, h, Some(client(ctr, c)));
            var next := NextChallenge(e.entries, c);
            IsCloser(h.(lastAccepted := ctr), c, e.host, next)
  {
    var inner := Handle(h.(lastAccepted := ctr), ctr, Some(c), Call(id, command));
    HearsCall(opener, h, client, c, ctr, id, command, inner);
    Refuses(h.(lastAccepted := ctr), c, ctr, id, command);
  }

  /** At most the last entry is a push, under the counter it raised. */
  predicate PushesLast(h: Host, e: Effect) {
    && (forall i :: 0 <= i < |e.entries| - 1 ==> !e.entries[i].Pushed?)
    && (e.entries != [] && e.entries[|e.entries| - 1].Pushed? ==>
        e.entries[|e.entries| - 1].ctr == e.host.ctr == h.ctr + 1)
  }

  lemma ThenPushesLast(h: Host, entry: Entry, e: Effect)
    requires PushesLast(h, e) && !entry.Pushed?
    ensures PushesLast(h, Then([entry], e))
  {
    assert ([entry] + e.entries)[1..] == e.entries;
  }

  lemma HandlePushesLast(h: Host, ctr: nat, c: Option<challenge>, plaintext: Plaintext)
    ensures PushesLast(h, Handle(h, ctr, c, plaintext))
  {
    if plaintext != Hello && h.restarts > 0 {
      ThenPushesLast(h, Forgot, Refuse(h.(restarts := h.restarts - 1, held := None)));
    }
  }

  lemma ReceivePushesLast(opener: Opener, h: Host, w: Option<Wire>)
    ensures PushesLast(h, Receive(opener, h, w))
  {
    var unsealed := Accepts(opener, h, w);
    if unsealed.Some? {
      var ctr, c, plaintext := w.value.ctr, Carried(w.value), unsealed.value;
      var h1 := h.(lastAccepted := ctr);
      HandlePushesLast(h1, ctr, c, plaintext);
      ThenPushesLast(h1, Heard(ctr, c, plaintext), Handle(h1, ctr, c, plaintext));
    }
  }

  lemma RunsNow(opener: Opener, h: Host, client: (nat, challenge) -> Wire, c: challenge, ctr: nat,
      id: int, command: string)
    requires SealsCall(opener, client, id, command) && |c| == 32 && h.lastAccepted < ctr < COUNTER_LIMIT
    requires Sends(h, c) == 1
    ensures var e := Receive(opener, h, Some(client(ctr, c)));
            e.host.ran == h.ran + [command] && e.host.draws == h.draws
  {
    AcceptsCall(opener, h, client, c, ctr, id, command);
  }

  /** With room for it, the answer goes out, and nothing else changes. */
  lemma AnswersNow(opener: Opener, h: Host, client: (nat, challenge) -> Wire, c: challenge, ctr: nat,
      id: int, command: string)
    requires SealsCall(opener, client, id, command) && |c| == 32 && h.lastAccepted < ctr < COUNTER_LIMIT
    requires Sends(h, c) == 1 && HasRoom(h, 1)
    ensures var e := Receive(opener, h, Some(client(ctr, c)));
            && e.host == h.(lastAccepted := ctr, ran := h.ran + [command], ctr := h.ctr + 1)
            && e.entries != [] && e.entries[|e.entries| - 1] == Pushed(h.ctr + 1, Answer(id, command), None)
  {
    AcceptsCall(opener, h, client, c, ctr, id, command);
  }

  /** The pushes among what was done. */
  function Pushes(entries: seq<Entry>): seq<Entry> {
    if entries == [] then [] else (if entries[0].Pushed? then [entries[0]] else []) + Pushes(entries[1..])
  }

  lemma {:induction false} PushesAre(entries: seq<Entry>)
    ensures Pushes(entries) == Only(entries, (e: Entry) => e.Pushed?)
  {
    if entries != [] {
      PushesAre(entries[1..]);
      OnlyFirst(entries[0], entries[1..], (e: Entry) => e.Pushed?);
      assert entries == [entries[0]] + entries[1..];
    }
  }

  lemma {:induction false} PushesTheLast(entries: seq<Entry>)
    requires forall i :: 0 <= i < |entries| - 1 ==> !entries[i].Pushed?
    ensures Pushes(entries)
            == if entries != [] && entries[|entries| - 1].Pushed? then [entries[|entries| - 1]] else []
  {
    if |entries| > 1 {
      PushesTheLast(entries[1..]);
    } else if entries != [] {
      assert entries[1..] == [];
    }
  }

  /** No call ran: a hello at most, under the challenge held from then on, which is the one before or the next draw. */
  predicate Refused(h: Host, after: Host, pushed: seq<Entry>) {
    && after.ran == h.ran && h.ctr <= after.ctr
    && (((after.held == h.held || after.held == None) && after.draws == h.draws)
        || (h.draws != [] && after.held == Some(h.draws[0]) && after.draws == h.draws[1..]))
    && (pushed == []
        || (h.ctr + 1 < COUNTER_LIMIT && after.held.Some? && |after.held.value| == 32
            && pushed == [Pushed(h.ctr + 1, Hello, after.held)] && after.ctr == h.ctr + 1))
  }

  /** A call ran under the challenge held, and its answer went out unless the counter has no header left. */
  predicate Served(h: Host, c: challenge, id: int, command: string, after: Host, pushed: seq<Entry>) {
    && h.held == Some(c) && after.held == h.held && after.draws == h.draws
    && after.ran == h.ran + [command] && h.ctr <= after.ctr
    && if h.ctr + 1 < COUNTER_LIMIT then
         pushed == [Pushed(h.ctr + 1, Answer(id, command), None)] && after.ctr == h.ctr + 1
       else pushed == []
  }

  lemma PushesBehind(entry: Entry, entries: seq<Entry>)
    requires !entry.Pushed?
    ensures Pushes([entry] + entries) == Pushes(entries)
  {
    assert ([entry] + entries)[1..] == entries;
  }

  lemma PushOfHello(h: Host, c: challenge, isNew: bool)
    ensures var e := Push(h, Hello, Some(c), None, isNew);
            && e.host.held == Some(c) && e.host.draws == h.draws && e.host.ran == h.ran && h.ctr <= e.host.ctr
            && (HasHeader(h.ctr + 1, Some(c)) ==> e.host.ctr == h.ctr + 1)
            && Pushes(e.entries) == if HasHeader(h.ctr + 1, Some(c)) then [Pushed(h.ctr + 1, Hello, Some(c))] else []
  {
    PushesTheLast(Push(h, Hello, Some(c), None, isNew).entries);
  }

  lemma PushOfAnswer(h: Host, id: int, command: string)
    ensures var e := Push(h, Answer(id, command), None, None, false);
            && e.host == h.(ctr := e.host.ctr) && h.ctr <= e.host.ctr
            && (h.ctr + 1 < COUNTER_LIMIT ==> e.host.ctr == h.ctr + 1)
            && Pushes(e.entries)
               == if h.ctr + 1 < COUNTER_LIMIT then [Pushed(h.ctr + 1, Answer(id, command), None)] else []
  {
    PushesTheLast(Push(h, Answer(id, command), None, None, false).entries);
  }

  lemma DrawnIsRefusal(h: Host)
    ensures Refused(h, HelloDrawn(h).host, Pushes(HelloDrawn(h).entries))
  {
    if h.draws != [] {
      PushOfHello(h.(draws := h.draws[1..]), h.draws[0], true);
    }
  }

  lemma RefuseIsRefusal(h: Host)
    ensures Refused(h, Refuse(h).host, Pushes(Refuse(h).entries))
  {
    if h.held.Some? {
      PushOfHello(h, h.held.value, false);
    } else {
      DrawnIsRefusal(h);
    }
  }

  lemma RestartIsRefusal(h: Host)
    ensures Refused(h, TakeRestart(h).host, Pushes(TakeRestart(h).entries))
  {
    var h1 := h.(restarts := h.restarts - 1, held := None);
    RefuseIsRefusal(h1);
    PushesBehind(Forgot, Refuse(h1).entries);
  }

  lemma RunIsService(h: Host, ctr: nat, c: challenge, id: int, command: string)
    requires h.held == Some(c)
    ensures var e := RunCall(h, ctr, c, id, command); Served(h, c, id, command, e.host, Pushes(e.entries))
  {
    var h1 := h.(ran := h.ran + [command]);
    PushOfAnswer(h1, id, command);
    PushesBehind(Ran(ctr, c, command), Push(h1, Answer(id, command), None, None, false).entries);
  }

  lemma HandleServesOrRefuses(h: Host, ctr: nat, c: challenge, id: int, command: string)
    ensures var e := Handle(h, ctr, Some(c), Call(id, command));
            Refused(h, e.host, Pushes(e.entries)) || Served(h, c, id, command, e.host, Pushes(e.entries))
  {
    if h.restarts > 0 {
      RestartIsRefusal(h);
    } else if h.held != Some(c) {
      RefuseIsRefusal(h);
    } else {
      RunIsService(h, ctr, c, id, command);
    }
  }

  /** Whatever its counters and supplies, the host drops a sealed call, refuses it, or runs it. */
  lemma ServesOrRefuses(opener: Opener, h: Host, client: (nat, challenge) -> Wire, c: challenge, ctr: nat,
      id: int, command: string)
    requires SealsCall(opener, client, id, command) && |c| == 32 && ctr < COUNTER_LIMIT
    ensures var e := Receive(opener, h, Some(client(ctr, c)));
            Refused(h, e.host, Pushes(e.entries)) || Served(h, c, id, command, e.host, Pushes(e.entries))
  {
    AcceptsCall(opener, h, client, c, ctr, id, command);
    if ctr > h.lastAccepted {
      var h1 := h.(lastAccepted := ctr);
      HearsCall(opener, h, client, c, ctr, id, command, Handle(h1, ctr, Some(c), Call(id, command)));
      HandleServesOrRefuses(h1, ctr, c, id, command);
    }
  }

  lemma HelloIsRefusal(opener: Opener, h: Host)
    ensures var e := Step(opener, h, Event.AnswerTheHello); Refused(h, e.host, Pushes(e.entries))
  {
    DrawnIsRefusal(h.(holdsHello := false));
  }

  /** What the host has at hand for its next reply. */
  predicate CanReply(h: Host) {
    && (h.held.Some? ==> |h.held.value| == 32)
    && (h.restarts > 0 || h.held.None? ==> h.draws != [] && |h.draws[0]| == 32)
  }

  /** A call that is accepted, with room for the reply: the host after it, and the one push. */
  function Reply(h: Host, ctr: nat, c: challenge, id: int, command: string): (Host, Entry)
    requires CanReply(h)
  {
    var told := h.(lastAccepted := ctr, ctr := h.ctr + 1);
    if h.restarts > 0 || h.held.None? then
      var left := if h.restarts > 0 then h.restarts - 1 else h.restarts;
      (told.(restarts := left, held := Some(h.draws[0]), draws := h.draws[1..]),
       Pushed(told.ctr, Hello, Some(h.draws[0])))
    else if c != h.held.value then (told, Pushed(told.ctr, Hello, h.held))
    else (told.(ran := h.ran + [command]), Pushed(told.ctr, Answer(id, command), None))
  }

  lemma HandlesCall(h: Host, ctr: nat, c: challenge, id: int, command: string)
    requires CanReply(h) && HasRoom(h, 1) && h.lastAccepted == ctr
    ensures var e, reply := Handle(h, ctr, Some(c), Call(id, command)), Reply(h, ctr, c, id, command);
            e.host == reply.0 && e.entries != [] && e.entries[|e.entries| - 1] == reply.1
  {
  }

  lemma HandlePushesReply(h: Host, ctr: nat, c: challenge, id: int, command: string)
    requires CanReply(h) && HasRoom(h, 1) && h.lastAccepted == ctr
    ensures var e, reply := Handle(h, ctr, Some(c), Call(id, command)), Reply(h, ctr, c, id, command);
            e.host == reply.0 && Pushes(e.entries) == [reply.1]
  {
    HandlesCall(h, ctr, c, id, command);
    HandlePushesLast(h, ctr, Some(c), Call(id, command));
    PushesTheLast(Handle(h, ctr, Some(c), Call(id, command)).entries);
  }

  /** Of every call that is sealed right and newer than the last: a restart, a refusal, or the call run. */
  lemma RepliesToCall(opener: Opener, h: Host, client: (nat, challenge) -> Wire, c: challenge, ctr: nat,
      id: int, command: string)
    requires SealsCall(opener, client, id, command) && |c| == 32 && h.lastAccepted < ctr < COUNTER_LIMIT
    requires CanReply(h) && HasRoom(h, 1)
    ensures var e, reply := Receive(opener, h, Some(client(ctr, c))), Reply(h, ctr, c, id, command);
            e.host == reply.0 && Pushes(e.entries) == [reply.1]
  {
    var h1 := h.(lastAccepted := ctr);
    var inner := Handle(h1, ctr, Some(c), Call(id, command));
    HearsCall(opener, h, client, c, ctr, id, command, inner);
    HandlePushesReply(h1, ctr, c, id, command);
    PushesBehind(Heard(ctr, Some(c), Call(id, command)), inner.entries);
  }

  /** A refusal at the limit sends no hello, so the client keeps its challenge and stays refused. */
  lemma RefusedInSilence(opener: Opener, h: Host, client: (nat, challenge) -> Wire, c: challenge, ctr: nat,
      id: int, command: string)
    requires SealsCall(opener, client, id, command) && |c| == 32 && c !in h.draws && ctr < COUNTER_LIMIT
    requires Sends(h, c) > 1 && !HasRoom(h, 1)
    ensures var e := Receive(opener, h, Some(client(ctr, c)));
            && NextChallenge(e.entries, c) == c && e.host.ran == h.ran
            && c !in e.host.draws && Sends(e.host, c) > 1 && !HasRoom(e.host, 1)
  {
    AcceptsCall(opener, h, client, c, ctr, id, command);
  }

  /** However often the client sends then, its call never runs. */
  lemma {:induction false} NeverRunsAtTheLimit(opener: Opener, h: Host, client: (nat, challenge) -> Wire, c: challenge,
      ctrs: seq<nat>, id: int, command: string)
    requires SealsCall(opener, client, id, command) && |c| == 32 && c !in h.draws
    requires forall i :: 0 <= i < |ctrs| ==> ctrs[i] < COUNTER_LIMIT
    requires Sends(h, c) > 1 && !HasRoom(h, 1)
    ensures Resend(opener, h, client, c, ctrs).ran == h.ran
    decreases |ctrs|
  {
    if ctrs != [] {
      var e := Receive(opener, h, Some(client(ctrs[0], c)));
      RefusedInSilence(opener, h, client, c, ctrs[0], id, command);
      NeverRunsAtTheLimit(opener, e.host, client, c, ctrs[1..], id, command);
    }
  }

  lemma CountersGoOn(ctrs: seq<nat>, above: nat)
    requires ctrs != [] && Increasing(ctrs, above)
    ensures Increasing(ctrs[1..], ctrs[0])
  {
  }

  lemma DropsTwice(s: seq<challenge>, i: nat, j: nat)
    requires i + j <= |s|
    ensures s[i..][j..] == s[i + j..]
  {
  }

  /** What a client resending after a refusal has in hand. */
  lemma CloserGoesOn(h: Host, c: challenge, ctrs: seq<nat>, after: Host, next: challenge)
    requires ctrs != [] && Increasing(ctrs, h.lastAccepted) && |ctrs| <= Sends(h, c)
    requires Sends(h, c) > 1 && HasRoom(h, 1) && IsCloser(h.(lastAccepted := ctrs[0]), c, after, next)
    ensures AreFresh(after, next) && |after.draws| >= Drawn(after)
    ensures Increasing(ctrs[1..], after.lastAccepted)
    ensures Sends(after, next) == Sends(h, c) - 1 && after.ran == h.ran
    ensures HasRoom(after, Sends(after, next) - 1) <==> HasRoom(h, Sends(h, c) - 1)
    ensures |h.draws| >= Drawn(h) && after.draws[Drawn(after)..] == h.draws[Drawn(h)..]
  {
    CountersGoOn(ctrs, h.lastAccepted);
    DropsTwice(h.draws, Drawn(h) - Drawn(after), Drawn(after));
  }

  /**
   A client that resends a refused call under the challenge of the answering hello
   gets it run by its send number max(n, 1) + 1 at the latest, n being the restarts
   pending: on exactly send number `Sends`, not before, with `Drawn` draws spent. It
   does so exactly when the host's counter has room for the hellos on the way.
   */
  lemma {:induction false} CallRunsOnTime(opener: Opener, h: Host, client: (nat, challenge) -> Wire, c: challenge,
      ctrs: seq<nat>, id: int, command: string)
    requires SealsCall(opener, client, id, command) && AreFresh(h, c) && |h.draws| >= Drawn(h)
    requires Increasing(ctrs, h.lastAccepted) && |ctrs| <= Sends(h, c)
    ensures Sends(h, c) <= (if h.restarts > 1 then h.restarts else 1) + 1
    ensures var after := Resend(opener, h, client, c, ctrs);
            var isServed := |ctrs| == Sends(h, c) && HasRoom(h, Sends(h, c) - 1);
            && after.ran == (if isServed then h.ran + [command] else h.ran)
            && (isServed ==> after.draws == h.draws[Drawn(h)..])
    decreases |ctrs|
  {
    if ctrs != [] {
      var e := Receive(opener, h, Some(client(ctrs[0], c)));
      if Sends(h, c) == 1 {
        RunsNow(opener, h, client, c, ctrs[0], id, command);
      } else if HasRoom(h, 1) {
        var after, next := e.host, NextChallenge(e.entries, c);
        RefusedOnce(opener, h, client, c, ctrs[0], id, command);
        CloserGoesOn(h, c, ctrs, after, next);
        CallRunsOnTime(opener, after, client, next, ctrs[1..], id, command);
      } else {
        NeverRunsAtTheLimit(opener, h, client, c, ctrs, id, command);
      }
    }
  }

  // ------------------------------------------------------------------- every inbound frame

  /** A frame of the phone's: a plaintext sealed under a counter, and a challenge of 32 bytes or none. */
  predicate IsSealed(opener: Opener, w: Option<Wire>, ctr: nat, c: Option<challenge>, plaintext: Plaintext) {
    && w.Some? && w.value.v == 2 && !w.value.hasFrom && !w.value.hasTo
    && w.value.ctr == ctr && ctr < 0x20_0000_0000_0000
    && w.value.challenge == (if c.Some? then Some(c) else None) && (c.Some? ==> |c.value| == 32)
    && w.value.ct.Some? && w.value.sig.Some?
    && opener(SealedHeader(w.value.keyId, ctr, c), w.value.ct.value, w.value.sig.value) == Some(plaintext)
  }

  /**
   What the host hears: exactly the sealed frames above the last accepted counter, as
   they were sealed. Anything else throws and leaves it as it was.
   */
  lemma HearsExactly(opener: Opener, h: Host, w: Option<Wire>, ctr: nat, c: Option<challenge>, plaintext: Plaintext)
    ensures var e := Receive(opener, h, w);
            && (e.entries != [] && e.entries[0] == Heard(ctr, c, plaintext) <==>
                IsSealed(opener, w, ctr, c, plaintext) && h.lastAccepted < ctr)
            && (e.entries != [] ==> e.entries[0].Heard?)
            && (e.entries == [] ==> e == Effect(h, Threw, []))
  {
  }

  /** A hello under a challenge that is held from now on: it goes out if a header exists for it. */
  predicate Greets(h: Host, c: challenge, e: Effect) {
    && e.host == h.(held := Some(c), ctr := if h.ctr < 0xffff_ffff_ffff_ffff then h.ctr + 1 else h.ctr)
    && e.outcome == (if h.ctr >= 0xffff_ffff_ffff_ffff then Trapped
                     else if h.ctr + 1 < 0x20_0000_0000_0000 && |c| == 32 then Done else Threw)
    && Pushes(e.entries) == if e.outcome == Done then [Pushed(h.ctr + 1, Hello, Some(c))] else []
  }

  /** The next draw is taken for a hello; without one it throws. */
  predicate GreetsAnew(h: Host, e: Effect) {
    if h.draws == [] then e.host == h && e.outcome == Threw && Pushes(e.entries) == []
    else Greets(h.(draws := h.draws[1..]), h.draws[0], e)
  }

  lemma HelloDrawnGreets(h: Host)
    ensures GreetsAnew(h, HelloDrawn(h))
  {
    if h.draws != [] {
      PushOfHello(h.(draws := h.draws[1..]), h.draws[0], true);
    }
  }

  lemma RefuseGreets(h: Host)
    ensures if h.held.Some? then Greets(h, h.held.value, Refuse(h)) else GreetsAnew(h, Refuse(h))
  {
    if h.held.Some? {
      PushOfHello(h, h.held.value, false);
    } else {
      HelloDrawnGreets(h);
    }
  }

  lemma TakeRestartGreets(h: Host)
    ensures GreetsAnew(h.(restarts := h.restarts - 1, held := None), TakeRestart(h))
  {
    var h1 := h.(restarts := h.restarts - 1, held := None);
    RefuseGreets(h1);
    PushesBehind(Forgot, Refuse(h1).entries);
  }

  /** The effect of a frame that is heard, before the entry that reports it. */
  lemma Hears(opener: Opener, h: Host, w: Option<Wire>, ctr: nat, c: Option<challenge>, plaintext: Plaintext)
    returns (inner: Effect)
    requires IsSealed(opener, w, ctr, c, plaintext) && h.lastAccepted < ctr
    ensures inner == Handle(h.(lastAccepted := ctr), ctr, c, plaintext)
    ensures var e := Receive(opener, h, w);
            e.host == inner.host && e.outcome == inner.outcome && Pushes(e.entries) == Pushes(inner.entries)
  {
    inner := Handle(h.(lastAccepted := ctr), ctr, c, plaintext);
    PushesBehind(Heard(ctr, c, plaintext), inner.entries);
  }

  /**
   Every hello that is heard is answered by one hello with the next draw, which is held,
   unless hellos are held back: then only the last accepted counter moves.
   */
  lemma AnswersEveryHello(opener: Opener, h: Host, w: Option<Wire>, ctr: nat, c: Option<challenge>)
    requires IsSealed(opener, w, ctr, c, Hello) && h.lastAccepted < ctr
    ensures var e, told := Receive(opener, h, w), h.(lastAccepted := ctr);
            if h.holdsHello then e.host == told && e.outcome == Done && Pushes(e.entries) == []
            else GreetsAnew(told, e)
  {
    var inner := Hears(opener, h, w, ctr, c, Hello);
    HelloDrawnGreets(h.(lastAccepted := ctr));
  }

  /** A call runs under the challenge held; its answer goes out if a header exists for it. */
  predicate Runs(h: Host, id: int, command: string, e: Effect) {
    && e.host == h.(ran := h.ran + [command], ctr := if h.ctr < 0xffff_ffff_ffff_ffff then h.ctr + 1 else h.ctr)
    && e.outcome == (if h.ctr >= 0xffff_ffff_ffff_ffff then Trapped
                     else if h.ctr + 1 < 0x20_0000_0000_0000 then Done else Threw)
    && Pushes(e.entries) == if e.outcome == Done then [Pushed(h.ctr + 1, Answer(id, command), None)] else []
  }

  lemma RunCallRuns(h: Host, ctr: nat, under: challenge, id: int, command: string)
    ensures Runs(h, id, command, RunCall(h, ctr, under, id, command))
  {
    var h1 := h.(ran := h.ran + [command]);
    PushOfAnswer(h1, id, command);
    PushesBehind(Ran(ctr, under, command), Push(h1, Answer(id, command), None, None, false).entries);
  }

  /**
   Every other frame that is heard: a pending restart forgets the challenge and draws a
   new one, a frame under another challenge than the one held is refused with a hello,
   and only a call under the challenge held runs.
   */
  lemma RefusesOrRuns(opener: Opener, h: Host, w: Option<Wire>, ctr: nat, c: Option<challenge>, plaintext: Plaintext)
    requires IsSealed(opener, w, ctr, c, plaintext) && h.lastAccepted < ctr && plaintext != Hello
    ensures var e, told := Receive(opener, h, w), h.(lastAccepted := ctr);
            if h.restarts > 0 then GreetsAnew(told.(restarts := h.restarts - 1, held := None), e)
            else if h.held.None? then GreetsAnew(told, e)
            else if c != h.held then Greets(told, h.held.value, e)
            else if plaintext.Call? then Runs(told, plaintext.id, plaintext.command, e)
            else e.host == told && e.outcome == Threw && Pushes(e.entries) == []
  {
    var inner := Hears(opener, h, w, ctr, c, plaintext);
    var told := h.(lastAccepted := ctr);
    if h.restarts > 0 {
      TakeRestartGreets(told);
    } else if c != h.held || h.held.None? {
      RefuseGreets(told);
    } else if plaintext.Call? {
      RunCallRuns(told, ctr, h.held.value, plaintext.id, plaintext.command);
    }
  }

  /**
   What the host is told to do: answer hellos from now on, starting with one; send one
   under a given challenge, held unless another is on the wire; restart before calls.
   */
  lemma DoesAsTold(opener: Opener, h: Host, c: challenge, shown: challenge, calls: int)
    ensures GreetsAnew(h.(holdsHello := false), Step(opener, h, Event.AnswerTheHello))
    ensures Greets(h, c, Step(opener, h, HelloWith(c, None)))
    ensures var e := Step(opener, h, HelloWith(c, Some(shown)));
            && e.host == h.(ctr := if h.ctr < 0xffff_ffff_ffff_ffff then h.ctr + 1 else h.ctr)
            && (e.outcome == Done <==> h.ctr + 1 < 0x20_0000_0000_0000 && |c| == 32)
            && Pushes(e.entries) == if e.outcome == Done then [Pushed(h.ctr + 1, Hello, Some(shown))] else []
    ensures Step(opener, h, Event.Restarts(calls)) == Effect(h.(restarts := calls), Done, [])
  {
    HelloDrawnGreets(h.(holdsHello := false));
    PushOfHello(h, c, true);
    PushesTheLast(Step(opener, h, HelloWith(c, Some(shown))).entries);
  }

  /** A run is its steps one after the other, up to the first that traps. */
  lemma RunsStepByStep(opener: Opener, h: Host, event: Event, rest: seq<Event>)
    ensures Run(opener, h, []) == Effect(h, Done, [])
    ensures var e, run := Step(opener, h, event), Run(opener, h, [event] + rest);
            if e.outcome == Trapped then run == e
            else
              var after := Run(opener, e.host, rest);
              run == Effect(after.host, after.outcome, e.entries + after.entries)
  {
    assert ([event] + rest)[1..] == rest;
  }
}
