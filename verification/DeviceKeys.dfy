/**
 Devices by the bytes of their keys. The registry files a device under the text its
 key came in, and two texts can be one key: who then holds the key, and when the last
 registration or deletion still decides.
 */
module DeviceKeys {
  import opened Common
  import opened Base64Url
  import opened RelayDevices

  /** The account has a device of that key. */
  ghost predicate Holds(p: Platform, r: Registry, keyBytes: bytes, userId: string) {
    exists key :: IsDeviceOf(p, r.devices, key, keyBytes) && r.devices[key].userId == userId
  }

  predicate IsDeviceOf(p: Platform, devices: map<string, Device>, key: string, keyBytes: bytes) {
    key in devices && p.FromBase64(key) == Some(keyBytes)
  }

  /** A registration that nothing on its key text followed. */
  predicate IsLive(log: seq<Entry>, i: nat) {
    i < |log| && log[i].Registered? && forall k :: i < k < |log| ==> !Decides(log[k], log[i].key)
  }

  predicate IsLiveOf(log: seq<Entry>, i: nat, keyBytes: bytes) {
    IsLive(log, i) && log[i].proof.keyBytes == keyBytes
  }

  ghost function LogOf(p: Platform, accounts: map<string, string>, events: seq<Event>): seq<Entry> {
    Run(p, NewRegistry(accounts), events).entries
  }

  ghost function DevicesOf(p: Platform, accounts: map<string, string>, events: seq<Event>): map<string, Device> {
    Run(p, NewRegistry(accounts), events).registry.devices
  }

  lemma LiveIsDevice(p: Platform, accounts: map<string, string>, events: seq<Event>, i: nat)
    requires IsLive(LogOf(p, accounts, events), i)
    ensures var devices, e := DevicesOf(p, accounts, events), LogOf(p, accounts, events)[i];
            e.key in devices && devices[e.key] == e.device && p.FromBase64(e.key) == Some(e.proof.keyBytes)
  {
    RunTracks(p, accounts, events);
    var log := LogOf(p, accounts, events);
    LastIsHolder(NewRegistry(accounts), log, log[i].key, i);
    var issue := RegistrationsAreProven(p, accounts, events, i);
  }

  lemma DeviceIsLive(p: Platform, accounts: map<string, string>, events: seq<Event>, key: string) returns (i: nat)
    requires key in DevicesOf(p, accounts, events)
    ensures var log := LogOf(p, accounts, events);
            IsLive(log, i) && log[i].key == key && log[i].device == DevicesOf(p, accounts, events)[key]
  {
    RunTracks(p, accounts, events);
    i := HolderIsLast(NewRegistry(accounts), LogOf(p, accounts, events), key);
  }

  /** After any run an account holds a key exactly when a live registration of its bytes is the account's. */
  lemma HoldersAreLive(p: Platform, accounts: map<string, string>, events: seq<Event>, keyBytes: bytes, userId: string)
    ensures var log := LogOf(p, accounts, events);
            Holds(p, Run(p, NewRegistry(accounts), events).registry, keyBytes, userId)
            <==> exists i: nat :: IsLiveOf(log, i, keyBytes) && log[i].device.userId == userId
  {
    var r, log := Run(p, NewRegistry(accounts), events).registry, LogOf(p, accounts, events);
    if Holds(p, r, keyBytes, userId) {
      var key :| IsDeviceOf(p, r.devices, key, keyBytes) && r.devices[key].userId == userId;
      var i := DeviceIsLive(p, accounts, events, key);
      LiveIsDevice(p, accounts, events, i);
      assert IsLiveOf(log, i, keyBytes);
    }
    if i: nat :| IsLiveOf(log, i, keyBytes) && log[i].device.userId == userId {
      LiveIsDevice(p, accounts, events, i);
      assert IsDeviceOf(p, r.devices, log[i].key, keyBytes);
    }
  }

  /** A key has at most one device, and so one holder, exactly when its live registrations used one text. */
  lemma OneDeviceExactly(p: Platform, accounts: map<string, string>, events: seq<Event>, keyBytes: bytes)
    ensures var devices, log := DevicesOf(p, accounts, events), LogOf(p, accounts, events);
            (forall k, k' ::
               IsDeviceOf(p, devices, k, keyBytes) && IsDeviceOf(p, devices, k', keyBytes) ==> k == k')
            <==> forall i: nat, j: nat :: IsLiveOf(log, i, keyBytes) && IsLiveOf(log, j, keyBytes)
                   ==> log[i].key == log[j].key
  {
    var devices, log := DevicesOf(p, accounts, events), LogOf(p, accounts, events);
    forall i: nat | IsLiveOf(log, i, keyBytes)
      ensures IsDeviceOf(p, devices, log[i].key, keyBytes)
    {
      LiveIsDevice(p, accounts, events, i);
    }
    forall k | IsDeviceOf(p, devices, k, keyBytes)
      ensures exists i: nat :: IsLiveOf(log, i, keyBytes) && log[i].key == k
    {
      var i := DeviceIsLive(p, accounts, events, k);
      LiveIsDevice(p, accounts, events, i);
      assert IsLiveOf(log, i, keyBytes);
    }
  }

  /** At most one account holds a key exactly when its live registrations are by one account. */
  lemma OneHolderExactly(p: Platform, accounts: map<string, string>, events: seq<Event>, keyBytes: bytes)
    ensures var r, log := Run(p, NewRegistry(accounts), events).registry, LogOf(p, accounts, events);
            (forall u, v :: Holds(p, r, keyBytes, u) && Holds(p, r, keyBytes, v) ==> u == v)
            <==> forall i: nat, j: nat :: IsLiveOf(log, i, keyBytes) && IsLiveOf(log, j, keyBytes)
                   ==> log[i].device.userId == log[j].device.userId
  {
    var r, log := Run(p, NewRegistry(accounts), events).registry, LogOf(p, accounts, events);
    forall u
      ensures Holds(p, r, keyBytes, u) <==> exists i: nat :: IsLiveOf(log, i, keyBytes) && log[i].device.userId == u
    {
      HoldersAreLive(p, accounts, events, keyBytes, u);
    }
    forall i: nat | IsLiveOf(log, i, keyBytes)
      ensures Holds(p, r, keyBytes, log[i].device.userId)
    {
    }
  }

  /** An entry on a key, whatever text it came in. */
  predicate DecidesKey(p: Platform, e: Entry, keyBytes: bytes) {
    (e.Registered? || e.Deleted?) && p.FromBase64(e.key) == Some(keyBytes)
  }

  predicate IsLastOn(p: Platform, log: seq<Entry>, i: nat, keyBytes: bytes) {
    i < |log| && DecidesKey(p, log[i], keyBytes) && forall k :: i < k < |log| ==> !DecidesKey(p, log[k], keyBytes)
  }

  /** The last registration or deletion of a key registers it to the account. */
  ghost predicate LastRegistersKey(p: Platform, log: seq<Entry>, keyBytes: bytes, userId: string) {
    exists i: nat :: IsLastOn(p, log, i, keyBytes) && log[i].Registered? && log[i].device.userId == userId
  }

  /**
   The last registration or deletion of a key decides who holds it exactly when every
   live registration of the key is by the account of that last one.
   */
  lemma LastDecidesExactly(p: Platform, accounts: map<string, string>, events: seq<Event>, keyBytes: bytes)
    ensures var r, log := Run(p, NewRegistry(accounts), events).registry, LogOf(p, accounts, events);
            (forall u :: Holds(p, r, keyBytes, u) <==> LastRegistersKey(p, log, keyBytes, u))
            <==> forall j: nat :: IsLiveOf(log, j, keyBytes) ==> LastRegistersKey(p, log, keyBytes, log[j].device.userId)
  {
    var r, log := Run(p, NewRegistry(accounts), events).registry, LogOf(p, accounts, events);
    forall u
      ensures Holds(p, r, keyBytes, u) <==> exists i: nat :: IsLiveOf(log, i, keyBytes) && log[i].device.userId == u
      ensures LastRegistersKey(p, log, keyBytes, u) ==> Holds(p, r, keyBytes, u)
    {
      HoldersAreLive(p, accounts, events, keyBytes, u);
      if LastRegistersKey(p, log, keyBytes, u) {
        var i: nat :| IsLastOn(p, log, i, keyBytes) && log[i].Registered? && log[i].device.userId == u;
        LastIsLive(p, accounts, events, i, keyBytes);
      }
    }
  }

  lemma LastIsLive(p: Platform, accounts: map<string, string>, events: seq<Event>, i: nat, keyBytes: bytes)
    requires var log := LogOf(p, accounts, events);
             IsLastOn(p, log, i, keyBytes) && log[i].Registered?
    ensures IsLiveOf(LogOf(p, accounts, events), i, keyBytes)
  {
    var log := LogOf(p, accounts, events);
    forall k | i < k < |log|
      ensures !Decides(log[k], log[i].key)
    {
      assert !DecidesKey(p, log[k], keyBytes);
    }
    LiveIsDevice(p, accounts, events, i);
  }

  /** Every registration used the one text that encoding its key gives. */
  predicate IsCanonical(p: Platform, log: seq<Entry>) {
    forall i :: 0 <= i < |log| && log[i].Registered? ==> log[i].key == p.ToBase64(log[i].proof.keyBytes)
  }

  lemma CanonicalText(p: Platform, accounts: map<string, string>, events: seq<Event>, keyBytes: bytes, i: nat)
    requires var log := LogOf(p, accounts, events);
             IsCanonical(p, log) && i < |log| && DecidesKey(p, log[i], keyBytes)
    ensures LogOf(p, accounts, events)[i].key == p.ToBase64(keyBytes)
  {
    var start, log := NewRegistry(accounts), LogOf(p, accounts, events);
    var j: nat := i;
    if log[i].Deleted? {
      DeletionsAreOwn(p, accounts, events, i);
      j := HolderIsLast(start, log[..i], log[i].key);
    }
    var issue := RegistrationsAreProven(p, accounts, events, j);
  }

  lemma LiveIsLast(p: Platform, accounts: map<string, string>, events: seq<Event>, keyBytes: bytes, j: nat)
    requires var log := LogOf(p, accounts, events);
             IsCanonical(p, log) && IsLiveOf(log, j, keyBytes)
    ensures IsLastOn(p, LogOf(p, accounts, events), j, keyBytes)
  {
    var log := LogOf(p, accounts, events);
    var issue := RegistrationsAreProven(p, accounts, events, j);
    forall k | j < k < |log|
      ensures !DecidesKey(p, log[k], keyBytes)
    {
      assert !Decides(log[k], log[j].key);
      if DecidesKey(p, log[k], keyBytes) {
        CanonicalText(p, accounts, events, keyBytes, k);
      }
    }
  }

  /** When callers register canonical texts, the last registration or deletion of a key tells its one holder. */
  lemma CanonicalTextsDecide(p: Platform, accounts: map<string, string>, events: seq<Event>, keyBytes: bytes)
    requires IsCanonical(p, LogOf(p, accounts, events))
    ensures var r, log := Run(p, NewRegistry(accounts), events).registry, LogOf(p, accounts, events);
            && (forall u, v :: Holds(p, r, keyBytes, u) && Holds(p, r, keyBytes, v) ==> u == v)
            && (forall u :: Holds(p, r, keyBytes, u) <==> LastRegistersKey(p, log, keyBytes, u))
  {
    var log := LogOf(p, accounts, events);
    forall j: nat | IsLiveOf(log, j, keyBytes)
      ensures LastRegistersKey(p, log, keyBytes, log[j].device.userId)
    {
      LiveIsLast(p, accounts, events, keyBytes, j);
    }
    LastDecidesExactly(p, accounts, events, keyBytes);
    OneLast(p, log, keyBytes);
  }

  lemma OneLast(p: Platform, log: seq<Entry>, keyBytes: bytes)
    ensures forall u, v :: LastRegistersKey(p, log, keyBytes, u) && LastRegistersKey(p, log, keyBytes, v) ==> u == v
  {
    forall u, v | LastRegistersKey(p, log, keyBytes, u) && LastRegistersKey(p, log, keyBytes, v)
      ensures u == v
    {
      var i: nat :| IsLastOn(p, log, i, keyBytes) && log[i].Registered? && log[i].device.userId == u;
      var j: nat :| IsLastOn(p, log, j, keyBytes) && log[j].Registered? && log[j].device.userId == v;
    }
  }

  // ----------------------------------------------------------------- one key, two texts

  function AskChallenge(bearer: string): Request { Request("POST", CHALLENGE_PATH, Some(bearer), None) }

  function AskRegistration(bearer: string, key: string, nonce: string, signature: string): Request {
    Request("POST", DEVICES_PATH, Some(bearer),
      Some(map["ed25519PublicKey" := key, "x25519PublicKey" := "", "nonce" := nonce, "signature" := signature]))
  }

  /** A signature text of the key over what that account registers. */
  predicate Signs(p: Platform, signature: string, keyBytes: bytes, userId: string, drawn: nonceBytes) {
    var s := p.FromBase64(signature);
    && s.Some? && |s.value| == 64 && |keyBytes| == 32 && p.isKey(keyBytes)
    && p.isValidSignature(keyBytes, s.value, Message(p, userId, keyBytes, drawn))
  }

  /** A registry that expires and tampers nothing. */
  predicate IsQuiet(r: Registry) { r.challengesToExpire <= 0 && !r.tampersSignatures }

  /** A challenge, then the registration over its nonce. */
  ghost function Registering(p: Platform, r: Registry, bearer: string, key: string, signature: string, drawn: nonceBytes)
    : Effect
  {
    var asked := Step(p, r, Send(AskChallenge(bearer), drawn)).registry;
    Step(p, asked, Send(AskRegistration(bearer, key, p.ToBase64(drawn), signature), drawn))
  }

  /** A key text of its own was registered, under the next id. */
  predicate Adds(r: Registry, e: Effect, key: string, userId: string) {
    && e.registry.devices == r.devices[key := Device(DeviceId(r.nextDevice), userId)]
    && e.registry.nextDevice == r.nextDevice + 1
    && e.registry.accounts == r.accounts && IsQuiet(e.registry)
    && e.reply == Replied(201, Registration(DeviceId(r.nextDevice), false))
  }

  lemma AsksChallenge(p: Platform, r: Registry, bearer: string, drawn: nonceBytes)
    requires IsQuiet(r) && bearer in r.accounts
    ensures var asked := Step(p, r, Send(AskChallenge(bearer), drawn)).registry;
            && asked.liveNonces == r.liveNonces[p.ToBase64(drawn) := r.accounts[bearer]]
            && asked.devices == r.devices && asked.nextDevice == r.nextDevice
            && asked.accounts == r.accounts && IsQuiet(asked)
  {
  }

  lemma AsksRegistration(p: Platform, r: Registry, bearer: string, key: string, keyBytes: bytes,
      nonce: string, signature: string, drawn: nonceBytes)
    requires IsQuiet(r) && bearer in r.accounts && nonce in r.liveNonces && r.liveNonces[nonce] == r.accounts[bearer]
    requires p.FromBase64(nonce) == Some(drawn) && p.FromBase64(key) == Some(keyBytes) && key !in r.devices
    requires Signs(p, signature, keyBytes, r.accounts[bearer], drawn)
    ensures Adds(r, Step(p, r, Send(AskRegistration(bearer, key, nonce, signature), drawn)), key, r.accounts[bearer])
  {
    var body := AskRegistration(bearer, key, nonce, signature).body;
    assert ReadFields(p, body) == Some(Fields(key, nonce, keyBytes, drawn, p.FromBase64(signature).value));
  }

  lemma RegistersKeyText(p: Platform, r: Registry, bearer: string, key: string, keyBytes: bytes,
      signature: string, drawn: nonceBytes, e: Effect)
    requires IsBase64(p.base64) && IsQuiet(r) && bearer in r.accounts && key !in r.devices
    requires p.FromBase64(key) == Some(keyBytes) && Signs(p, signature, keyBytes, r.accounts[bearer], drawn)
    requires e == Registering(p, r, bearer, key, signature, drawn)
    ensures Adds(r, e, key, r.accounts[bearer])
  {
    UrlRoundTrip(p.base64, drawn);
    AsksChallenge(p, r, bearer, drawn);
    var asked := Step(p, r, Send(AskChallenge(bearer), drawn)).registry;
    AsksRegistration(p, asked, bearer, key, keyBytes, p.ToBase64(drawn), signature, drawn);
  }

  lemma BothHold(p: Platform, r: Registry, e: Effect, f: Effect, a: string, b: string, k: string, k': string,
      keyBytes: bytes)
    requires Adds(r, e, k, a) && Adds(e.registry, f, k', b) && k != k'
    requires p.FromBase64(k) == Some(keyBytes) && p.FromBase64(k') == Some(keyBytes)
    ensures Holds(p, f.registry, keyBytes, a) && Holds(p, f.registry, keyBytes, b)
    ensures f.reply == Replied(201, Registration(DeviceId(r.nextDevice + 1), false))
  {
    assert IsDeviceOf(p, f.registry.devices, k, keyBytes) && IsDeviceOf(p, f.registry.devices, k', keyBytes);
  }

  /**
   One key, two holders: a text with a URL-safe character and its standard twin are
   registered by two accounts, each with a device of its own; the second is told that
   nothing was transferred.
   */
  lemma OneKeyTwoHolders(p: Platform, accounts: map<string, string>, a: string, b: string, key: string, keyBytes: bytes,
      sa: string, sb: string, da: nonceBytes, db: nonceBytes)
    requires IsBase64(p.base64) && a in accounts && b in accounts && accounts[a] != accounts[b]
    requires p.FromBase64(key) == Some(keyBytes) && ('-' in key || '_' in key)
    requires Signs(p, sa, keyBytes, accounts[a], da) && Signs(p, sb, keyBytes, accounts[b], db)
    ensures var first := Registering(p, NewRegistry(accounts), a, key, sa, da);
            var last := Registering(p, first.registry, b, StandardText(key), sb, db);
            && Holds(p, last.registry, keyBytes, accounts[a]) && Holds(p, last.registry, keyBytes, accounts[b])
            && last.reply == Replied(201, Registration(DeviceId(2), false))
  {
    SecondText(p.base64, key);
    var r := NewRegistry(accounts);
    var first := Registering(p, r, a, key, sa, da);
    RegistersKeyText(p, r, a, key, keyBytes, sa, da, first);
    var last := Registering(p, first.registry, b, StandardText(key), sb, db);
    RegistersKeyText(p, first.registry, b, StandardText(key), keyBytes, sb, db, last);
    BothHold(p, r, first, last, accounts[a], accounts[b], key, StandardText(key), keyBytes);
  }
}
