/**
 The device registry of the relay: one-shot challenges, proof of key, transfer of a
 device between accounts, and deletion, for any requests that arrive.
 */
module RelayDevices {
  import opened Common
  import Bits
  import opened Numerals
  import opened Base64Url

  /** The 32 random bytes a challenge is made of. */
  type nonceBytes = b: bytes | |b| == 32 witness seq(32, _ => 0)

  datatype Device = Device(id: string, userId: string)

  /** The parts of a request the registry looks at. A body is its decoded string fields. */
  datatype Request = Request(
    verb: string, path: string, bearer: Option<string>, body: Option<map<string, string>>)

  datatype Body =
    | Issue(nonce: string)
    | Registration(id: string, transferred: bool)
    | Empty
    | Failure(code: string)

  datatype Reply = Replied(status: nat, body: Body) | ConnectionLost | Forwarded

  /** What the registry takes from its platform. */
  datatype Platform = Platform(
    utf8: string -> bytes,
    base64: Base64,
    isKey: bytes -> bool,
    isValidSignature: (bytes, bytes, bytes) -> bool)
  {
    function ToBase64(data: bytes): string { ToUrl(base64, data) }

    function FromBase64(text: string): Option<bytes> { FromUrl(base64, text) }
  }

  /** The fields of the actor. */
  datatype Registry = Registry(
    accounts: map<string, string>, devices: map<string, Device>, liveNonces: map<string, string>,
    challengesToExpire: int, tampersSignatures: bool, dropsDeletions: bool, nextDevice: nat,
    requests: seq<Request>)

  /** A registration that passed every check: what was signed, and by which key. */
  datatype Proof = Proof(userId: string, keyBytes: bytes, nonceBytes: bytes, signature: bytes)

  /** What a request did to challenges and devices. */
  datatype Entry =
    | Issued(nonce: string, userId: string, drawn: nonceBytes, overwrites: bool)
    | Expired(nonce: string)
    | Burnt(nonce: string)
    | Registered(key: string, device: Device, nonce: string, transferred: bool, proof: Proof)
    | Deleted(key: string, device: Device, caller: string)

  datatype Effect = Effect(registry: Registry, reply: Reply, entries: seq<Entry>)

  const DEVICES_PATH := "/devices"

  const CHALLENGE_PATH := "/devices/challenge"

  function DeviceId(n: nat): string { "device-" + Show(n, 10) }

  lemma DeviceIdInjective(m: nat, n: nat)
    ensures DeviceId(m) == DeviceId(n) <==> m == n
  {
    if DeviceId(m) == DeviceId(n) {
      assert DeviceId(m)[7..] == Show(m, 10) && DeviceId(n)[7..] == Show(n, 10);
      ShowInjective(m, n, 10);
    }
  }

  function Refused(r: Registry, status: nat, code: string): Effect {
    Effect(r, Replied(status, Failure(code)), [])
  }

  // --------------------------------------------------------------------- operations

  /** `challenge`, with the bytes that were drawn. */
  function Challenge(p: Platform, r: Registry, userId: string, drawn: nonceBytes): Effect {
    var nonce := p.ToBase64(drawn);
    if r.challengesToExpire > 0 then
      Effect(r.(challengesToExpire := r.challengesToExpire - 1), Replied(201, Issue(nonce)), [Expired(nonce)])
    else
      Effect(r.(liveNonces := r.liveNonces[nonce := userId]), Replied(201, Issue(nonce)),
        [Issued(nonce, userId, drawn, nonce in r.liveNonces)])
  }

  datatype Fields = Fields(key: string, nonce: string, keyBytes: bytes, nonceBytes: bytes, signature: bytes)

  /** The fields of a registration, when they are all there and well formed. */
  function ReadFields(p: Platform, body: Option<map<string, string>>): (f: Option<Fields>)
    ensures f.Some? ==> |f.value.keyBytes| == 32 && |f.value.signature| == 64
    ensures f.Some? ==> p.FromBase64(f.value.key) == Some(f.value.keyBytes)
    ensures f.Some? ==> p.FromBase64(f.value.nonce) == Some(f.value.nonceBytes)
  {
    if body.None? then None
    else
      var b := body.value;
      if "ed25519PublicKey" !in b || "x25519PublicKey" !in b || "nonce" !in b || "signature" !in b then None
      else
        var keyBytes := p.FromBase64(b["ed25519PublicKey"]);
        var nonceBytes := p.FromBase64(b["nonce"]);
        var signature := p.FromBase64(b["signature"]);
        if keyBytes.None? || |keyBytes.value| != 32 || nonceBytes.None? || signature.None? || |signature.value| != 64
        then None
        else Some(Fields(b["ed25519PublicKey"], b["nonce"], keyBytes.value, nonceBytes.value, signature.value))
  }

  function FlipFirst(signature: bytes): bytes
    requires |signature| > 0
  {
    assert Pow(2, 8) == 256;
    Bits.XorBound(signature[0], 1, 8);
    signature[0 := Bits.Xor(signature[0], 1)]
  }

  const PREFIX := "kiroshi-device-register-v1"

  /** What the key signs: no separators, no lengths. */
  function Message(p: Platform, userId: string, keyBytes: bytes, nonceBytes: bytes): bytes {
    p.utf8(PREFIX) + p.utf8(userId) + keyBytes + nonceBytes
  }

  predicate Proves(p: Platform, proof: Proof) {
    && p.isKey(proof.keyBytes)
    && p.isValidSignature(proof.keyBytes, proof.signature,
      Message(p, proof.userId, proof.keyBytes, proof.nonceBytes))
  }

  /** `register`: the nonce is spent first, whatever comes of the rest. */
  function Register(p: Platform, r: Registry, body: Option<map<string, string>>, userId: string): Effect {
    match ReadFields(p, body)
    case None => Refused(r, 400, "VALIDATION_ERROR")
    case Some(f) =>
      if f.nonce !in r.liveNonces then Refused(r, 400, "DEVICE_CHALLENGE_INVALID")
      else
        var spent := r.(liveNonces := r.liveNonces - {f.nonce});
        if r.liveNonces[f.nonce] != userId then
          Effect(spent, Replied(400, Failure("DEVICE_CHALLENGE_INVALID")), [Burnt(f.nonce)])
        else
          var signature := if r.tampersSignatures then FlipFirst(f.signature) else f.signature;
          var proof := Proof(userId, f.keyBytes, f.nonceBytes, signature);
          if !Proves(p, proof) then
            Effect(spent, Replied(403, Failure("DEVICE_PROOF_INVALID")), [Burnt(f.nonce)])
          else Enrol(spent, f.key, userId, f.nonce, proof)
  }

  /** The end of `register`: a new device, or the one the key has, moved if need be. */
  function Enrol(r: Registry, key: string, userId: string, nonce: string, proof: Proof): Effect {
    if key !in r.devices then
      var device := Device(DeviceId(r.nextDevice), userId);
      Effect(r.(devices := r.devices[key := device], nextDevice := r.nextDevice + 1),
        Replied(201, Registration(device.id, false)), [Registered(key, device, nonce, false, proof)])
    else
      var transferred := r.devices[key].userId != userId;
      var device := Device(r.devices[key].id, userId);
      Effect(r.(devices := r.devices[key := device]),
        Replied(200, Registration(device.id, transferred)), [Registered(key, device, nonce, transferred, proof)])
  }

  /** A key whose device has the id and the owner, if there is one. */
  ghost function FindDevice(r: Registry, device: Device): (key: Option<string>)
    ensures key.Some? ==> key.value in r.devices && r.devices[key.value] == device
    ensures key.None? ==> forall k :: k in r.devices ==> r.devices[k] != device
  {
    if k :| k in r.devices && r.devices[k] == device then Some(k) else None
  }

  /** `delete`. */
  ghost function Delete(r: Registry, id: string, userId: string): Effect {
    match FindDevice(r, Device(id, userId))
    case None => Refused(r, 404, "NOT_FOUND")
    case Some(key) => Removed(r, key, userId)
  }

  function Removed(r: Registry, key: string, caller: string): Effect
    requires key in r.devices
  {
    Effect(r.(devices := r.devices - {key}), Replied(204, Empty), [Deleted(key, r.devices[key], caller)])
  }

  function AccountOf(r: Registry, bearer: Option<string>): Option<string> {
    if bearer.Some? && bearer.value in r.accounts then Some(r.accounts[bearer.value]) else None
  }

  /** The id a deletion names: the path past "/devices/", empty when it is no longer. */
  function DeletedId(path: string): string { if |path| <= 9 then "" else path[9..] }

  /** `answer`; the bytes are those `challenge` would draw. */
  ghost function Answer(p: Platform, r: Registry, request: Request, drawn: nonceBytes): Effect {
    match AccountOf(r, request.bearer)
    case None => Refused(r, 401, "UNAUTHENTICATED")
    case Some(userId) =>
      if request.verb == "POST" && request.path == CHALLENGE_PATH then Challenge(p, r, userId, drawn)
      else if request.verb == "POST" && request.path == DEVICES_PATH then Register(p, r, request.body, userId)
      else if request.verb == "DELETE" then Delete(r, DeletedId(request.path), userId)
      else Refused(r, 404, "NOT_FOUND")
  }

  datatype Event =
    | Send(request: Request, drawn: nonceBytes)
    | ExpireChallenges(count: int)
    | TamperSignatures
    | DropDeletions

  /** `send`: every request is recorded, also those that go elsewhere or get lost. */
  ghost function Receive(p: Platform, r: Registry, request: Request, drawn: nonceBytes): Effect {
    var recorded := r.(requests := r.requests + [request]);
    if !(DEVICES_PATH <= request.path) then Effect(recorded, Forwarded, [])
    else if request.verb == "DELETE" && r.dropsDeletions then Effect(recorded, ConnectionLost, [])
    else Answer(p, recorded, request, drawn)
  }

  ghost function Step(p: Platform, r: Registry, event: Event): Effect {
    match event
    case Send(request, drawn) => Receive(p, r, request, drawn)
    case ExpireChallenges(count) => Effect(r.(challengesToExpire := count), Forwarded, [])
    case TamperSignatures => Effect(r.(tampersSignatures := true), Forwarded, [])
    case DropDeletions => Effect(r.(dropsDeletions := true), Forwarded, [])
  }

  ghost function RunWith(step: (Registry, Event) -> Effect, r: Registry, events: seq<Event>): Effect
    decreases |events|
  {
    if events == [] then Effect(r, Forwarded, [])
    else
      var e := step(r, events[0]);
      var rest := RunWith(step, e.registry, events[1..]);
      rest.(entries := e.entries + rest.entries)
  }

  ghost function Steps(p: Platform): (Registry, Event) -> Effect {
    (r, event) => Step(p, r, event)
  }

  /** Everything a registry does over a run. */
  ghost function Run(p: Platform, r: Registry, events: seq<Event>): Effect { RunWith(Steps(p), r, events) }

  function NewRegistry(accounts: map<string, string>): Registry {
    Registry(accounts, map[], map[], 0, false, false, 1, [])
  }

  // ----------------------------------------------------------------------- validity

  /** Ids were issued by the counter, and no two keys share one. */
  ghost predicate Valid(r: Registry) {
    && (forall k :: k in r.devices ==> IsIssuedId(r.devices[k].id, r.nextDevice))
    && (forall k, k' :: k in r.devices && k' in r.devices && r.devices[k].id == r.devices[k'].id ==> k == k')
  }

  /** An id numbered from 1, below the next one. */
  ghost predicate IsIssuedId(id: string, next: nat) { exists n: nat :: 1 <= n < next && id == DeviceId(n) }

  lemma AddedKeepsValid(r: Registry, key: string, userId: string, after: Registry)
    requires Valid(r) && r.nextDevice >= 1 && key !in r.devices && after.nextDevice == r.nextDevice + 1
    requires after.devices == r.devices[key := Device(DeviceId(r.nextDevice), userId)]
    ensures Valid(after)
  {
    assert IsIssuedId(DeviceId(r.nextDevice), after.nextDevice);
    forall k | k in r.devices
      ensures r.devices[k].id != DeviceId(r.nextDevice) && IsIssuedId(r.devices[k].id, after.nextDevice)
    {
      var n: nat :| 1 <= n < r.nextDevice && r.devices[k].id == DeviceId(n);
      if r.devices[k].id == DeviceId(r.nextDevice) {
        DeviceIdInjective(n, r.nextDevice);
      }
    }
  }

  lemma MovedKeepsValid(r: Registry, key: string, userId: string, after: Registry)
    requires Valid(r) && key in r.devices && after.nextDevice == r.nextDevice
    requires after.devices == r.devices[key := Device(r.devices[key].id, userId)]
    ensures Valid(after)
  {
    forall k | k in after.devices
      ensures k in r.devices && after.devices[k].id == r.devices[k].id
    {
    }
  }

  lemma EnrolKeepsValid(r: Registry, key: string, userId: string, nonce: string, proof: Proof)
    requires Valid(r) && r.nextDevice >= 1
    ensures Valid(Enrol(r, key, userId, nonce, proof).registry)
    ensures Enrol(r, key, userId, nonce, proof).registry.nextDevice >= 1
  {
    var after := Enrol(r, key, userId, nonce, proof).registry;
    if key in r.devices {
      MovedKeepsValid(r, key, userId, after);
    } else {
      AddedKeepsValid(r, key, userId, after);
    }
  }

  /** Validity rests on the devices and the next id alone. */
  lemma SameDevicesStayValid(r: Registry, after: Registry)
    requires Valid(r) && after.devices == r.devices && after.nextDevice == r.nextDevice
    ensures Valid(after)
  {
  }

  lemma RegisterKeepsValid(p: Platform, r: Registry, body: Option<map<string, string>>, userId: string)
    requires Valid(r) && r.nextDevice >= 1
    ensures Valid(Register(p, r, body, userId).registry)
    ensures Register(p, r, body, userId).registry.nextDevice >= 1
  {
    var after, fields := Register(p, r, body, userId).registry, ReadFields(p, body);
    if fields.Some? {
      var f := fields.value;
      var spent := r.(liveNonces := r.liveNonces - {f.nonce});
      var signature := if r.tampersSignatures then FlipFirst(f.signature) else f.signature;
      SameDevicesStayValid(r, spent);
      EnrolKeepsValid(spent, f.key, userId, f.nonce, Proof(userId, f.keyBytes, f.nonceBytes, signature));
    }
  }

  lemma ChallengeKeepsValid(p: Platform, r: Registry, userId: string, drawn: nonceBytes)
    requires Valid(r)
    ensures Valid(Challenge(p, r, userId, drawn).registry)
    ensures Challenge(p, r, userId, drawn).registry.nextDevice == r.nextDevice
  {
    SameDevicesStayValid(r, Challenge(p, r, userId, drawn).registry);
  }

  lemma AnswerKeepsValid(p: Platform, r: Registry, request: Request, drawn: nonceBytes)
    requires Valid(r) && r.nextDevice >= 1
    ensures Valid(Answer(p, r, request, drawn).registry)
    ensures Answer(p, r, request, drawn).registry.nextDevice >= 1
  {
    var account := AccountOf(r, request.bearer);
    if account.Some? {
      var userId := account.value;
      if request.verb == "POST" && request.path == CHALLENGE_PATH {
        ChallengeKeepsValid(p, r, userId, drawn);
      } else if request.verb == "POST" && request.path == DEVICES_PATH {
        RegisterKeepsValid(p, r, request.body, userId);
      } else if request.verb == "DELETE" {
        DeleteKeepsValid(r, DeletedId(request.path), userId);
      }
    }
  }

  lemma DeleteKeepsValid(r: Registry, id: string, userId: string)
    requires Valid(r)
    ensures Valid(Delete(r, id, userId).registry)
    ensures Delete(r, id, userId).registry.nextDevice == r.nextDevice
  {
  }

  lemma ReceiveKeepsValid(p: Platform, r: Registry, request: Request, drawn: nonceBytes)
    requires Valid(r) && r.nextDevice >= 1
    ensures Valid(Receive(p, r, request, drawn).registry)
    ensures Receive(p, r, request, drawn).registry.nextDevice >= 1
  {
    var recorded := r.(requests := r.requests + [request]);
    assert Valid(recorded);
    AnswerKeepsValid(p, recorded, request, drawn);
  }

  // ------------------------------------------------------------------------- actor

  class FakeRelayDevices {
    const platform: Platform
    const accounts: map<string, string>
    var devices: map<string, Device>
    var liveNonces: map<string, string>
    var challengesToExpire: int
    var tampersSignatures: bool
    var dropsDeletions: bool
    var nextDevice: nat
    var requests: seq<Request>
    ghost var log: seq<Entry>

    function Now(): Registry
      reads this
    {
      Registry(accounts, devices, liveNonces, challengesToExpire, tampersSignatures, dropsDeletions, nextDevice, requests)
    }

    /** The actor went through an effect: new fields, and a log that only grew by it. */
    twostate predicate Did(e: Effect, reply: Reply)
      reads this
    {
      Now() == e.registry && reply == e.reply && log == old(log) + e.entries
    }

    constructor (platform: Platform, accounts: map<string, string>)
      ensures this.platform == platform && Now() == NewRegistry(accounts) && log == []
      ensures devices == map[] && liveNonces == map[] && requests == [] && nextDevice == 1
      ensures challengesToExpire == 0 && !tampersSignatures && !dropsDeletions
      ensures Valid(Now())
    {
      this.platform := platform;
      this.accounts := accounts;
      devices, liveNonces, challengesToExpire := map[], map[], 0;
      tampersSignatures, dropsDeletions, nextDevice, requests, log := false, false, 1, [], [];
    }

    method ExpireChallenges(count: int)
      modifies this
      ensures Did(Step(platform, old(Now()), Event.ExpireChallenges(count)), Forwarded)
    {
      challengesToExpire := count;
    }

    method TamperSignatures()
      modifies this
      ensures Did(Step(platform, old(Now()), Event.TamperSignatures), Forwarded)
    {
      tampersSignatures := true;
    }

    method DropDeletions()
      modifies this
      ensures Did(Step(platform, old(Now()), Event.DropDeletions), Forwarded)
    {
      dropsDeletions := true;
    }

    method Send(request: Request, drawn: nonceBytes) returns (reply: Reply)
      requires Valid(Now()) && nextDevice >= 1
      modifies this
      ensures Did(Receive(platform, old(Now()), request, drawn), reply)
      ensures Valid(Now()) && nextDevice >= 1
    {
      ReceiveKeepsValid(platform, Now(), request, drawn);
      requests := requests + [request];
      if !(DEVICES_PATH <= request.path) {
        return Forwarded;
      }
      if request.verb == "DELETE" && dropsDeletions {
        return ConnectionLost;
      }
      reply := AnswerRequest(request, drawn);
    }

    method AnswerRequest(request: Request, drawn: nonceBytes) returns (reply: Reply)
      requires Valid(Now())
      modifies this
      ensures Did(Answer(platform, old(Now()), request, drawn), reply)
    {
      if request.bearer.None? || request.bearer.value !in accounts {
        return Replied(401, Failure("UNAUTHENTICATED"));
      }
      var userId := accounts[request.bearer.value];
      if request.verb == "POST" && request.path == CHALLENGE_PATH {
        reply := IssueChallenge(userId, drawn);
      } else if request.verb == "POST" && request.path == DEVICES_PATH {
        reply := RegisterDevice(request.body, userId);
      } else if request.verb == "DELETE" {
        reply := DeleteDevice(DeletedId(request.path), userId);
      } else {
        reply := Replied(404, Failure("NOT_FOUND"));
      }
    }

    method IssueChallenge(userId: string, drawn: nonceBytes) returns (reply: Reply)
      modifies this
      ensures Did(Challenge(platform, old(Now()), userId, drawn), reply)
    {
      var nonce := platform.ToBase64(drawn);
      if challengesToExpire > 0 {
        challengesToExpire := challengesToExpire - 1;
        log := log + [Expired(nonce)];
      } else {
        log := log + [Issued(nonce, userId, drawn, nonce in liveNonces)];
        liveNonces := liveNonces[nonce := userId];
      }
      reply := Replied(201, Issue(nonce));
    }

    method RegisterDevice(body: Option<map<string, string>>, userId: string) returns (reply: Reply)
      modifies this
      ensures Did(Register(platform, old(Now()), body, userId), reply)
    {
      var fields := ReadFields(platform, body);
      if fields.None? {
        return Replied(400, Failure("VALIDATION_ERROR"));
      }
      var f := fields.value;
      if f.nonce !in liveNonces {
        return Replied(400, Failure("DEVICE_CHALLENGE_INVALID"));
      }
      var issuedTo := liveNonces[f.nonce];
      liveNonces := liveNonces - {f.nonce};
      if issuedTo != userId {
        log := log + [Burnt(f.nonce)];
        return Replied(400, Failure("DEVICE_CHALLENGE_INVALID"));
      }
      var signature := if tampersSignatures then FlipFirst(f.signature) else f.signature;
      var proof := Proof(userId, f.keyBytes, f.nonceBytes, signature);
      if !Proves(platform, proof) {
        log := log + [Burnt(f.nonce)];
        return Replied(403, Failure("DEVICE_PROOF_INVALID"));
      }
      reply := EnrolDevice(f.key, userId, f.nonce, proof);
    }

    method EnrolDevice(key: string, userId: string, nonce: string, proof: Proof) returns (reply: Reply)
      modifies this
      ensures Did(Enrol(old(Now()), key, userId, nonce, proof), reply)
    {
      if key !in devices {
        var device := Device(DeviceId(nextDevice), userId);
        nextDevice := nextDevice + 1;
        devices := devices[key := device];
        log := log + [Registered(key, device, nonce, false, proof)];
        return Replied(201, Registration(device.id, false));
      }
      var transferred := devices[key].userId != userId;
      var device := Device(devices[key].id, userId);
      devices := devices[key := device];
      log := log + [Registered(key, device, nonce, transferred, proof)];
      reply := Replied(200, Registration(device.id, transferred));
    }

    method DeleteDevice(id: string, userId: string) returns (reply: Reply)
      requires Valid(Now())
      modifies this
      ensures Did(Delete(old(Now()), id, userId), reply)
    {
      if !exists key :: key in devices && devices[key] == Device(id, userId) {
        return Replied(404, Failure("NOT_FOUND"));
      }
      var key :| key in devices && devices[key] == Device(id, userId);
      log := log + [Deleted(key, devices[key], userId)];
      devices := devices - {key};
      reply := Replied(204, Empty);
    }
  }

  // --------------------------------------------------------- what every log obeys

  function Lookup<V>(m: map<string, V>, k: string): Option<V> { if k in m then Some(m[k]) else None }

  /** The device of a key: that of the last event on it, unless a deletion. */
  function Holder(start: Registry, log: seq<Entry>, key: string): Option<Device> {
    if log == [] then Lookup(start.devices, key)
    else
      var front := log[..|log| - 1];
      match log[|log| - 1]
      case Registered(k, device, _, _, _) => if k == key then Some(device) else Holder(start, front, key)
      case Deleted(k, _, _) => if k == key then None else Holder(start, front, key)
      case _ => Holder(start, front, key)
  }

  /** The account a nonce is live for. */
  function LiveFor(start: Registry, log: seq<Entry>, nonce: string): Option<string> {
    if log == [] then Lookup(start.liveNonces, nonce)
    else
      var front := log[..|log| - 1];
      match log[|log| - 1]
      case Issued(n, userId, _, _) => if n == nonce then Some(userId) else LiveFor(start, front, nonce)
      case Registered(_, _, n, _, _) => if n == nonce then None else LiveFor(start, front, nonce)
      case Burnt(n) => if n == nonce then None else LiveFor(start, front, nonce)
      case _ => LiveFor(start, front, nonce)
  }

  /** Whether an entry registered a key that had no device. */
  predicate Creates(start: Registry, log: seq<Entry>, e: Entry) {
    e.Registered? && Holder(start, log, e.key).None?
  }

  /** The number of the next device. */
  function Next(start: Registry, log: seq<Entry>): nat {
    if log == [] then start.nextDevice
    else
      var front := log[..|log| - 1];
      Next(start, front) + (if Creates(start, front, log[|log| - 1]) then 1 else 0)
  }

  /**
   A registration proves its key over a live nonce of the same account, and keeps
   the id of the key's device or takes the next one.
   */
  predicate RegistersProperly(p: Platform, start: Registry, log: seq<Entry>, e: Entry)
    requires e.Registered?
  {
    && LiveFor(start, log, e.nonce) == Some(e.device.userId)
    && e.proof.userId == e.device.userId && Proves(p, e.proof)
    && |e.proof.keyBytes| == 32
    && p.FromBase64(e.key) == Some(e.proof.keyBytes) && p.FromBase64(e.nonce) == Some(e.proof.nonceBytes)
    && match Holder(start, log, e.key)
       case None => e.device.id == DeviceId(Next(start, log)) && !e.transferred
       case Some(held) => e.device.id == held.id && (e.transferred <==> held.userId != e.device.userId)
  }

  /** The entries that may come next. */
  predicate MayFollow(p: Platform, start: Registry, log: seq<Entry>, e: Entry) {
    match e
    case Issued(nonce, _, drawn, overwrites) =>
      nonce == p.ToBase64(drawn) && (overwrites <==> LiveFor(start, log, nonce).Some?)
    case Burnt(nonce) => LiveFor(start, log, nonce).Some?
    case Expired(_) => true
    case Registered(_, _, _, _, _) => RegistersProperly(p, start, log, e)
    case Deleted(key, device, caller) => Holder(start, log, key) == Some(device) && device.userId == caller
  }

  predicate IsLog(p: Platform, start: Registry, log: seq<Entry>) {
    log == [] || (IsLog(p, start, log[..|log| - 1]) && MayFollow(p, start, log[..|log| - 1], log[|log| - 1]))
  }

  datatype Tally = Tally(issued: nat, replaced: nat, burnt: nat, registered: nat)

  function Count(log: seq<Entry>): Tally {
    if log == [] then Tally(0, 0, 0, 0)
    else
      var t := Count(log[..|log| - 1]);
      match log[|log| - 1]
      case Issued(_, _, _, overwrites) =>
        t.(issued := t.issued + 1, replaced := t.replaced + if overwrites then 1 else 0)
      case Burnt(_) => t.(burnt := t.burnt + 1)
      case Registered(_, _, _, _, _) => t.(registered := t.registered + 1)
      case _ => t
  }

  /** Challenges are conserved: each one recorded was spent in one way, or is live. */
  predicate Balances(start: Registry, log: seq<Entry>, live: nat) {
    var t := Count(log);
    |start.liveNonces| + t.issued == t.registered + t.burnt + t.replaced + live
  }

  ghost predicate TracksDevices(start: Registry, log: seq<Entry>, r: Registry) {
    && (forall key :: Holder(start, log, key) == Lookup(r.devices, key))
    && r.nextDevice == Next(start, log)
  }

  ghost predicate TracksNonces(start: Registry, log: seq<Entry>, r: Registry) {
    && (forall nonce :: LiveFor(start, log, nonce) == Lookup(r.liveNonces, nonce))
    && Balances(start, log, |r.liveNonces|)
  }

  ghost predicate Tracks(p: Platform, start: Registry, log: seq<Entry>, r: Registry) {
    IsLog(p, start, log) && TracksDevices(start, log, r) && TracksNonces(start, log, r)
  }

  /** The fields of a registry after an entry, given those before it. */
  predicate Applied(r: Registry, e: Entry, after: Registry) {
    && after.devices == (match e
                         case Registered(key, device, _, _, _) => r.devices[key := device]
                         case Deleted(key, _, _) => r.devices - {key}
                         case _ => r.devices)
    && after.liveNonces == (match e
                            case Issued(nonce, userId, _, _) => r.liveNonces[nonce := userId]
                            case Burnt(nonce) => r.liveNonces - {nonce}
                            case Registered(_, _, nonce, _, _) => r.liveNonces - {nonce}
                            case _ => r.liveNonces)
    && after.nextDevice == r.nextDevice + (if e.Registered? && e.key !in r.devices then 1 else 0)
  }

  lemma MapSizes<V>(m: map<string, V>, k: string, v: V)
    ensures k !in m ==> |m[k := v]| == |m| + 1
    ensures k in m ==> |m[k := v]| == |m| && |m - {k}| == |m| - 1
  {
    if k in m {
      assert m[k := v].Keys == m.Keys;
      assert |m[k := v].Keys| == |m[k := v]|;
      var rest := m - {k};
      assert m.Keys == rest.Keys + {k};
      assert |rest.Keys| == |rest| && |m.Keys| == |m|;
    } else {
      assert m[k := v].Keys == m.Keys + {k};
      assert |m[k := v].Keys| == |m[k := v]| && |m.Keys| == |m|;
    }
  }

  lemma EntryTracksDevices(start: Registry, log: seq<Entry>, r: Registry, e: Entry, after: Registry)
    requires TracksDevices(start, log, r) && Applied(r, e, after)
    ensures TracksDevices(start, log + [e], after)
  {
    assert (log + [e])[..|log|] == log;
    if e.Registered? {
      assert Holder(start, log, e.key) == Lookup(r.devices, e.key);
    }
  }

  lemma EntryTracksLive(start: Registry, log: seq<Entry>, r: Registry, e: Entry, after: Registry)
    requires forall nonce :: LiveFor(start, log, nonce) == Lookup(r.liveNonces, nonce)
    requires Applied(r, e, after)
    ensures forall nonce :: LiveFor(start, log + [e], nonce) == Lookup(after.liveNonces, nonce)
  {
    assert (log + [e])[..|log|] == log;
  }

  lemma EntryTracksNonces(p: Platform, start: Registry, log: seq<Entry>, r: Registry, e: Entry, after: Registry)
    requires TracksNonces(start, log, r) && MayFollow(p, start, log, e) && Applied(r, e, after)
    ensures TracksNonces(start, log + [e], after)
  {
    EntryTracksLive(start, log, r, e, after);
    assert (log + [e])[..|log|] == log;
    if Touches(e, TouchedNonce(e)) {
      assert LiveFor(start, log, e.nonce) == Lookup(r.liveNonces, e.nonce);
      MapSizes(r.liveNonces, e.nonce, if e.Issued? then e.userId else "");
    }
  }

  /** An entry that starts or ends the life of a nonce. */
  predicate Touches(e: Entry, nonce: string) {
    (e.Issued? || e.Burnt? || e.Registered?) && e.nonce == nonce
  }

  function TouchedNonce(e: Entry): string { if e.Deleted? then "" else e.nonce }

  lemma EntryTracks(p: Platform, start: Registry, log: seq<Entry>, r: Registry, e: Entry, after: Registry)
    requires Tracks(p, start, log, r) && MayFollow(p, start, log, e) && Applied(r, e, after)
    ensures Tracks(p, start, log + [e], after)
  {
    EntryTracksDevices(start, log, r, e, after);
    EntryTracksNonces(p, start, log, r, e, after);
    assert (log + [e])[..|log|] == log;
  }

  lemma ChallengeTracks(p: Platform, start: Registry, log: seq<Entry>, r: Registry, userId: string, drawn: nonceBytes)
    requires Tracks(p, start, log, r)
    ensures var e := Challenge(p, r, userId, drawn);
            Tracks(p, start, log + e.entries, e.registry)
  {
    var e := Challenge(p, r, userId, drawn);
    var nonce := p.ToBase64(drawn);
    assert LiveFor(start, log, nonce) == Lookup(r.liveNonces, nonce);
    EntryTracks(p, start, log, r, e.entries[0], e.registry);
    assert e.entries == [e.entries[0]];
  }

  /** What an enrolment records, of a registry whose live nonce is spent with it. */
  lemma EnrolFollows(p: Platform, start: Registry, log: seq<Entry>, r: Registry, key: string, nonce: string,
      proof: Proof)
    requires Tracks(p, start, log, r)
    requires nonce in r.liveNonces && r.liveNonces[nonce] == proof.userId && Proves(p, proof)
    requires |proof.keyBytes| == 32
    requires p.FromBase64(key) == Some(proof.keyBytes) && p.FromBase64(nonce) == Some(proof.nonceBytes)
    ensures MayFollow(p, start, log, Enrol(r, key, proof.userId, nonce, proof).entries[0])
  {
    assert Holder(start, log, key) == Lookup(r.devices, key);
    assert LiveFor(start, log, nonce) == Lookup(r.liveNonces, nonce);
  }

  lemma EnrolApplies(r: Registry, spent: Registry, key: string, nonce: string, proof: Proof)
    requires nonce in r.liveNonces && r.liveNonces[nonce] == proof.userId
    requires spent == r.(liveNonces := r.liveNonces - {nonce})
    ensures var e := Enrol(spent, key, proof.userId, nonce, proof);
            && e.entries == Enrol(r, key, proof.userId, nonce, proof).entries == [e.entries[0]]
            && Applied(r, e.entries[0], e.registry)
  {
  }

  lemma EnrolTracks(p: Platform, start: Registry, log: seq<Entry>, r: Registry, key: string, nonce: string,
      proof: Proof)
    requires Tracks(p, start, log, r)
    requires nonce in r.liveNonces && r.liveNonces[nonce] == proof.userId && Proves(p, proof)
    requires |proof.keyBytes| == 32
    requires p.FromBase64(key) == Some(proof.keyBytes) && p.FromBase64(nonce) == Some(proof.nonceBytes)
    ensures var e := Enrol(r.(liveNonces := r.liveNonces - {nonce}), key, proof.userId, nonce, proof);
            Tracks(p, start, log + e.entries, e.registry)
  {
    var spent := r.(liveNonces := r.liveNonces - {nonce});
    var e := Enrol(spent, key, proof.userId, nonce, proof);
    EnrolApplies(r, spent, key, nonce, proof);
    EnrolFollows(p, start, log, r, key, nonce, proof);
    EntryTracks(p, start, log, r, e.entries[0], e.registry);
  }

  lemma BurntTracks(p: Platform, start: Registry, log: seq<Entry>, r: Registry, nonce: string)
    requires Tracks(p, start, log, r) && nonce in r.liveNonces
    ensures Tracks(p, start, log + [Burnt(nonce)], r.(liveNonces := r.liveNonces - {nonce}))
  {
    assert LiveFor(start, log, nonce) == Lookup(r.liveNonces, nonce);
    EntryTracks(p, start, log, r, Burnt(nonce), r.(liveNonces := r.liveNonces - {nonce}));
  }

  lemma RegisterTracks(p: Platform, start: Registry, log: seq<Entry>, r: Registry,
      body: Option<map<string, string>>, userId: string)
    requires Tracks(p, start, log, r)
    ensures var e := Register(p, r, body, userId);
            Tracks(p, start, log + e.entries, e.registry)
  {
    var fields := ReadFields(p, body);
    if fields.None? || fields.value.nonce !in r.liveNonces {
      assert log + [] == log;
    } else {
      var f := fields.value;
      var signature := if r.tampersSignatures then FlipFirst(f.signature) else f.signature;
      var proof := Proof(userId, f.keyBytes, f.nonceBytes, signature);
      BurntTracks(p, start, log, r, f.nonce);
      if r.liveNonces[f.nonce] == userId && Proves(p, proof) {
        EnrolTracks(p, start, log, r, f.key, f.nonce, proof);
      }
    }
  }

  lemma DeleteTracks(p: Platform, start: Registry, log: seq<Entry>, r: Registry, id: string, userId: string)
    requires Tracks(p, start, log, r)
    ensures var e := Delete(r, id, userId);
            Tracks(p, start, log + e.entries, e.registry)
  {
    var found := FindDevice(r, Device(id, userId));
    if found.None? {
      assert log + [] == log;
    } else {
      var key := found.value;
      assert Holder(start, log, key) == Lookup(r.devices, key);
      EntryTracks(p, start, log, r, Deleted(key, r.devices[key], userId), r.(devices := r.devices - {key}));
    }
  }

  lemma AnswerTracks(p: Platform, start: Registry, log: seq<Entry>, r: Registry, request: Request, drawn: nonceBytes)
    requires Tracks(p, start, log, r)
    ensures var e := Answer(p, r, request, drawn);
            Tracks(p, start, log + e.entries, e.registry)
  {
    assert log + [] == log;
    var account := AccountOf(r, request.bearer);
    if account.Some? {
      if request.verb == "POST" && request.path == CHALLENGE_PATH {
        ChallengeTracks(p, start, log, r, account.value, drawn);
      } else if request.verb == "POST" && request.path == DEVICES_PATH {
        RegisterTracks(p, start, log, r, request.body, account.value);
      } else if request.verb == "DELETE" {
        DeleteTracks(p, start, log, r, DeletedId(request.path), account.value);
      }
    }
  }

  lemma StepTracks(p: Platform, start: Registry, log: seq<Entry>, r: Registry, event: Event)
    requires Tracks(p, start, log, r)
    ensures var e := Step(p, r, event);
            Tracks(p, start, log + e.entries, e.registry)
  {
    assert log + [] == log;
    if event.Send? {
      var recorded := r.(requests := r.requests + [event.request]);
      assert Tracks(p, start, log, recorded);
      AnswerTracks(p, start, log, recorded, event.request, event.drawn);
    }
  }

  ghost predicate KeepsTrack(p: Platform, step: (Registry, Event) -> Effect, start: Registry) {
    forall log, r, event :: Tracks(p, start, log, r) ==>
      Tracks(p, start, log + step(r, event).entries, step(r, event).registry)
  }

  lemma {:induction false} RunTracksFrom(p: Platform, step: (Registry, Event) -> Effect, start: Registry,
      log: seq<Entry>, r: Registry, events: seq<Event>)
    requires KeepsTrack(p, step, start) && Tracks(p, start, log, r)
    ensures var e := RunWith(step, r, events);
            Tracks(p, start, log + e.entries, e.registry)
    decreases |events|
  {
    if events == [] {
      assert log + [] == log;
    } else {
      var e := step(r, events[0]);
      RunTracksFrom(p, step, start, log + e.entries, e.registry, events[1..]);
      var rest := RunWith(step, e.registry, events[1..]).entries;
      assert log + (e.entries + rest) == log + e.entries + rest;
    }
  }

  /** Over every run of arbitrary requests and faults the log obeys the rules. */
  lemma RunTracks(p: Platform, accounts: map<string, string>, events: seq<Event>)
    ensures var e := Run(p, NewRegistry(accounts), events);
            Tracks(p, NewRegistry(accounts), e.entries, e.registry)
  {
    var start, step := NewRegistry(accounts), Steps(p);
    forall log, r, event | Tracks(p, start, log, r)
      ensures Tracks(p, start, log + step(r, event).entries, step(r, event).registry)
    {
      StepTracks(p, start, log, r, event);
    }
    RunTracksFrom(p, step, start, [], start, events);
    var e := Run(p, start, events);
    assert [] + e.entries == e.entries;
  }

  // ---------------------------------------------------------------------- theorems

  /** Every entry of a log follows the entries before it, which are a log. */
  lemma {:induction false} EntryFollows(p: Platform, start: Registry, log: seq<Entry>, i: nat)
    requires IsLog(p, start, log) && i < |log|
    ensures IsLog(p, start, log[..i]) && MayFollow(p, start, log[..i], log[i])
    decreases |log|
  {
    if i < |log| - 1 {
      EntryFollows(p, start, log[..|log| - 1], i);
      assert log[..|log| - 1][..i] == log[..i];
    }
  }

  /** An entry that decides who holds a key. */
  predicate Decides(e: Entry, key: string) { (e.Registered? || e.Deleted?) && e.key == key }

  lemma {:induction false} HolderIsLast(start: Registry, log: seq<Entry>, key: string) returns (i: nat)
    requires start.devices == map[] && Holder(start, log, key).Some?
    ensures i < |log| && log[i].Registered? && log[i].key == key && Some(log[i].device) == Holder(start, log, key)
    ensures forall k :: i < k < |log| ==> !Decides(log[k], key)
    decreases |log|
  {
    var last := log[|log| - 1];
    if Decides(last, key) {
      i := |log| - 1;
    } else {
      i := HolderIsLast(start, log[..|log| - 1], key);
    }
  }

  lemma {:induction false} LastIsHolder(start: Registry, log: seq<Entry>, key: string, i: nat)
    requires i < |log| && log[i].Registered? && log[i].key == key
    requires forall k :: i < k < |log| ==> !Decides(log[k], key)
    ensures Holder(start, log, key) == Some(log[i].device)
    decreases |log|
  {
    if i < |log| - 1 {
      assert !Decides(log[|log| - 1], key);
      LastIsHolder(start, log[..|log| - 1], key, i);
    }
  }

  lemma {:induction false} LiveSinceIssue(start: Registry, log: seq<Entry>, nonce: string) returns (i: nat)
    requires start.liveNonces == map[] && LiveFor(start, log, nonce).Some?
    ensures i < |log| && log[i].Issued? && log[i].nonce == nonce && Some(log[i].userId) == LiveFor(start, log, nonce)
    ensures forall k :: i < k < |log| ==> !Touches(log[k], nonce)
    decreases |log|
  {
    var last := log[|log| - 1];
    if Touches(last, nonce) {
      i := |log| - 1;
    } else {
      i := LiveSinceIssue(start, log[..|log| - 1], nonce);
    }
  }

  /** The entry is the last one that decides the key, and registers it to the account. */
  predicate LastRegisters(log: seq<Entry>, i: nat, key: string, userId: string) {
    && i < |log| && log[i].Registered? && log[i].key == key && log[i].device.userId == userId
    && forall k :: i < k < |log| ==> !Decides(log[k], key)
  }

  /**
   After any run a key belongs to an account exactly when the last registration or
   deletion on it is a registration by that account.
   */
  lemma OwnershipIsLastRegistration(p: Platform, accounts: map<string, string>, events: seq<Event>,
      key: string, userId: string)
    ensures var e := Run(p, NewRegistry(accounts), events);
            (key in e.registry.devices && e.registry.devices[key].userId == userId)
            <==> exists i :: LastRegisters(e.entries, i, key, userId)
  {
    RunTracks(p, accounts, events);
    var start := NewRegistry(accounts);
    var e := Run(p, start, events);
    assert Holder(start, e.entries, key) == Lookup(e.registry.devices, key);
    if key in e.registry.devices && e.registry.devices[key].userId == userId {
      var i := HolderIsLast(start, e.entries, key);
      assert LastRegisters(e.entries, i, key, userId);
    }
    if i :| LastRegisters(e.entries, i, key, userId) {
      LastIsHolder(start, e.entries, key, i);
    }
  }

  /**
   Every registration of a run proved its key, over a nonce that was issued to the
   same account and was neither spent nor replaced before; an expired challenge was
   never issued, so it registers nothing.
   */
  lemma RegistrationsAreProven(p: Platform, accounts: map<string, string>, events: seq<Event>, i: nat)
    returns (issue: nat)
    requires var log := Run(p, NewRegistry(accounts), events).entries;
             i < |log| && log[i].Registered?
    ensures var log := Run(p, NewRegistry(accounts), events).entries;
            && issue < i && log[issue].Issued? && log[issue].nonce == log[i].nonce
            && log[issue].userId == log[i].device.userId
            && (forall k :: issue < k < i ==> !Touches(log[k], log[i].nonce))
            && log[i].proof.userId == log[i].device.userId && Proves(p, log[i].proof)
            && p.FromBase64(log[i].key) == Some(log[i].proof.keyBytes)
            && p.FromBase64(log[i].nonce) == Some(log[i].proof.nonceBytes)
  {
    RunTracks(p, accounts, events);
    var start := NewRegistry(accounts);
    var log := Run(p, start, events).entries;
    EntryFollows(p, start, log, i);
    issue := LiveSinceIssue(start, log[..i], log[i].nonce);
    assert log[..i][issue] == log[issue];
    forall k | issue < k < i
      ensures !Touches(log[k], log[i].nonce)
    {
      assert log[..i][k] == log[k];
    }
  }

  /** One issue of a nonce registers at most once. */
  lemma NonceRegistersOnce(p: Platform, accounts: map<string, string>, events: seq<Event>, i: nat, j: nat)
    returns (issue: nat)
    requires var log := Run(p, NewRegistry(accounts), events).entries;
             i < j < |log| && log[i].Registered? && log[j].Registered? && log[i].nonce == log[j].nonce
    ensures var log := Run(p, NewRegistry(accounts), events).entries;
            i < issue < j && log[issue].Issued? && log[issue].nonce == log[j].nonce
            && log[issue].userId == log[j].device.userId
  {
    issue := RegistrationsAreProven(p, accounts, events, j);
    var log := Run(p, NewRegistry(accounts), events).entries;
    assert Touches(log[i], log[j].nonce);
  }

  /** A deletion removes a device its caller owns, and only by that device's own key. */
  lemma DeletionsAreOwn(p: Platform, accounts: map<string, string>, events: seq<Event>, i: nat)
    requires var log := Run(p, NewRegistry(accounts), events).entries;
             i < |log| && log[i].Deleted?
    ensures var log := Run(p, NewRegistry(accounts), events).entries;
            log[i].device.userId == log[i].caller
            && Holder(NewRegistry(accounts), log[..i], log[i].key) == Some(log[i].device)
  {
    RunTracks(p, accounts, events);
    EntryFollows(p, NewRegistry(accounts), Run(p, NewRegistry(accounts), events).entries, i);
  }

  /** A registration answers `transferred` exactly when its key's device changes account. */
  lemma TransferredMeansMoved(p: Platform, accounts: map<string, string>, events: seq<Event>, i: nat)
    requires var log := Run(p, NewRegistry(accounts), events).entries;
             i < |log| && log[i].Registered?
    ensures var log := Run(p, NewRegistry(accounts), events).entries;
            var before := Holder(NewRegistry(accounts), log[..i], log[i].key);
            && (log[i].transferred <==> before.Some? && before.value.userId != log[i].device.userId)
            && (before.Some? ==> log[i].device.id == before.value.id)
  {
    RunTracks(p, accounts, events);
    EntryFollows(p, NewRegistry(accounts), Run(p, NewRegistry(accounts), events).entries, i);
  }

  /** No two recorded challenges have the same nonce. */
  ghost predicate IssuesOnce(log: seq<Entry>) {
    forall i, j :: 0 <= i < j < |log| && log[i].Issued? && log[j].Issued? ==> log[i].nonce != log[j].nonce
  }

  lemma {:induction false} FreshNoncesReplaceNone(p: Platform, start: Registry, log: seq<Entry>)
    requires IsLog(p, start, log) && start.liveNonces == map[] && IssuesOnce(log)
    ensures Count(log).replaced == 0
    decreases |log|
  {
    if log != [] {
      var front, last := log[..|log| - 1], log[|log| - 1];
      FreshNoncesReplaceNone(p, start, front);
      if last.Issued? && last.overwrites {
        var i := LiveSinceIssue(start, front, last.nonce);
      }
    }
  }

  /**
   Challenges are conserved over every run: those recorded are the registrations, the
   nonces burnt, those replaced by a challenge with the same nonce, and the live ones.
   With fresh nonces none is replaced.
   */
  lemma NoncesAreConserved(p: Platform, accounts: map<string, string>, events: seq<Event>)
    ensures var e := Run(p, NewRegistry(accounts), events);
            var t := Count(e.entries);
            && t.issued == t.registered + t.burnt + t.replaced + |e.registry.liveNonces|
            && (IssuesOnce(e.entries) ==> t.replaced == 0)
  {
    RunTracks(p, accounts, events);
    var e := Run(p, NewRegistry(accounts), events);
    if IssuesOnce(e.entries) {
      FreshNoncesReplaceNone(p, NewRegistry(accounts), e.entries);
    }
  }

  // ------------------------------------------------------------------------ device ids

  lemma {:induction false} NextGrows(start: Registry, log: seq<Entry>, i: nat)
    requires i <= |log|
    ensures start.nextDevice <= Next(start, log[..i]) <= Next(start, log)
    ensures i < |log| && Creates(start, log[..i], log[i]) ==> Next(start, log[..i]) < Next(start, log)
    decreases |log|
  {
    if i == |log| {
      assert log[..i] == log;
      if log != [] {
        NextGrows(start, log[..|log| - 1], |log| - 1);
      }
    } else {
      NextGrows(start, log[..|log| - 1], i);
      assert log[..|log| - 1][..i] == log[..i];
    }
  }

  /** Ids are never reissued, a deletion in between or not: every creation takes a new one. */
  lemma CreatedIdsDiffer(p: Platform, accounts: map<string, string>, events: seq<Event>, i: nat, j: nat)
    requires var start := NewRegistry(accounts);
             var log := Run(p, start, events).entries;
             i < j < |log| && Creates(start, log[..i], log[i]) && Creates(start, log[..j], log[j])
    ensures var log := Run(p, NewRegistry(accounts), events).entries;
            log[i].device.id != log[j].device.id
  {
    RunTracks(p, accounts, events);
    var start := NewRegistry(accounts);
    var log := Run(p, start, events).entries;
    EntryFollows(p, start, log, i);
    EntryFollows(p, start, log, j);
    NextGrows(start, log[..j], i);
    assert log[..j][..i] == log[..i];
    DeviceIdInjective(Next(start, log[..i]), Next(start, log[..j]));
  }

  ghost predicate StaysValid(step: (Registry, Event) -> Effect) {
    forall r, event :: Valid(r) && r.nextDevice >= 1 ==>
      Valid(step(r, event).registry) && step(r, event).registry.nextDevice >= 1
  }

  lemma {:induction false} RunStaysValid(step: (Registry, Event) -> Effect, r: Registry, events: seq<Event>)
    requires StaysValid(step) && Valid(r) && r.nextDevice >= 1
    ensures Valid(RunWith(step, r, events).registry)
    decreases |events|
  {
    if events != [] {
      RunStaysValid(step, step(r, events[0]).registry, events[1..]);
    }
  }

  lemma StepStaysValid(p: Platform, r: Registry, event: Event)
    requires Valid(r) && r.nextDevice >= 1
    ensures Valid(Step(p, r, event).registry) && Step(p, r, event).registry.nextDevice >= 1
  {
    if event.Send? {
      ReceiveKeepsValid(p, r, event.request, event.drawn);
    }
  }

  /** At any time ids tell the devices apart, and lie below the next one. */
  lemma IdsTellDevicesApart(p: Platform, accounts: map<string, string>, events: seq<Event>)
    ensures Valid(Run(p, NewRegistry(accounts), events).registry)
  {
    var step := Steps(p);
    forall r, event | Valid(r) && r.nextDevice >= 1
      ensures Valid(step(r, event).registry) && step(r, event).registry.nextDevice >= 1
    {
      StepStaysValid(p, r, event);
    }
    RunStaysValid(step, NewRegistry(accounts), events);
  }

  // ------------------------------------------------------------------- signed message

  /** With 32-byte keys and nonces the signed bytes determine user, key and nonce. */
  lemma MessageParses(p: Platform, userId: string, k: bytes, n: bytes, userId': string, k': bytes, n': bytes)
    requires |k| == |k'| == 32 && |n| == |n'| == 32
    ensures Message(p, userId, k, n) == Message(p, userId', k', n')
       <==> p.utf8(userId) == p.utf8(userId') && k == k' && n == n'
  {
    var m, m' := Message(p, userId, k, n), Message(p, userId', k', n');
    var start := |p.utf8(PREFIX)|;
    assert m[|m| - 32..] == n && m[|m| - 64..|m| - 32] == k && m[start..|m| - 64] == p.utf8(userId);
    assert m'[|m'| - 32..] == n' && m'[|m'| - 64..|m'| - 32] == k' && m'[start..|m'| - 64] == p.utf8(userId');
  }

  /** A nonce of another length moves bytes from one field to the next. */
  lemma NonceLengthIsNeeded(p: Platform, userId: string, userId': string, b: byte)
    returns (k: bytes, n: bytes, k': bytes, n': bytes)
    requires p.utf8(userId') == p.utf8(userId) + [b]
    ensures |k| == |k'| == 32 && n != n'
    ensures Message(p, userId, k, n) == Message(p, userId', k', n')
  {
    var zeros: bytes := seq(31, _ => 0);
    k, n, k', n' := [b] + zeros, [0], zeros + [0], [];
    var front := p.utf8(PREFIX) + p.utf8(userId);
    assert Message(p, userId, k, n) == front + ([b] + zeros + [0]);
    assert Message(p, userId', k', n') == front + ([b] + zeros + [0]);
  }

  /**
   Two registrations of a run that verified over the same signed bytes are by the same
   user, of the same key, over the same nonce, with base64 as it is.
   */
  lemma SignedBytesTellRegistrationsApart(p: Platform, accounts: map<string, string>, events: seq<Event>, i: nat, j: nat)
    requires IsBase64(p.base64)
    requires var log := Run(p, NewRegistry(accounts), events).entries;
             i < |log| && j < |log| && log[i].Registered? && log[j].Registered?
             && Message(p, log[i].proof.userId, log[i].proof.keyBytes, log[i].proof.nonceBytes)
             == Message(p, log[j].proof.userId, log[j].proof.keyBytes, log[j].proof.nonceBytes)
    ensures var log := Run(p, NewRegistry(accounts), events).entries;
            && p.utf8(log[i].device.userId) == p.utf8(log[j].device.userId)
            && log[i].proof.keyBytes == log[j].proof.keyBytes
            && log[i].proof.nonceBytes == log[j].proof.nonceBytes
  {
    LiveNoncesAreLong(p, accounts, events, i);
    LiveNoncesAreLong(p, accounts, events, j);
    var log := Run(p, NewRegistry(accounts), events).entries;
    var a, b := log[i].proof, log[j].proof;
    MessageParses(p, a.userId, a.keyBytes, a.nonceBytes, b.userId, b.keyBytes, b.nonceBytes);
  }

  lemma LiveNoncesAreLong(p: Platform, accounts: map<string, string>, events: seq<Event>, i: nat)
    requires IsBase64(p.base64)
    requires var log := Run(p, NewRegistry(accounts), events).entries;
             i < |log| && log[i].Registered?
    ensures var proof := Run(p, NewRegistry(accounts), events).entries[i].proof;
            && |proof.keyBytes| == 32 && |proof.nonceBytes| == 32
            && proof.userId == Run(p, NewRegistry(accounts), events).entries[i].device.userId
  {
    var issue := RegistrationsAreProven(p, accounts, events, i);
    RunTracks(p, accounts, events);
    var start := NewRegistry(accounts);
    var log := Run(p, start, events).entries;
    EntryFollows(p, start, log, issue);
    EntryFollows(p, start, log, i);
    UrlRoundTrip(p.base64, log[issue].drawn);
  }
}
