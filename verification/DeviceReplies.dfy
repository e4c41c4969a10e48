/**
 What the device registry answers: for every request its status, its body, and what it
 changes.
 */
module DeviceReplies {
  import opened Common
  import Bits
  import Numerals
  import opened Base64Url
  import opened RelayDevices

  /** The registry with a request recorded, and nothing else. */
  function Recorded(r: Registry, request: Request): Registry { r.(requests := r.requests + [request]) }

  function Fails(r: Registry, status: nat, code: string): Effect { Effect(r, Replied(status, Failure(code)), []) }

  /** Requests elsewhere are passed on, deletions are lost when they are to be, and the rest needs a known bearer. */
  lemma ReachesTheRegistry(p: Platform, r: Registry, request: Request, drawn: nonceBytes)
    ensures var e := Receive(p, r, request, drawn);
            && (!("/devices" <= request.path) ==> e == Effect(Recorded(r, request), Forwarded, []))
            && ("/devices" <= request.path && request.verb == "DELETE" && r.dropsDeletions ==>
                e == Effect(Recorded(r, request), ConnectionLost, []))
            && ("/devices" <= request.path && !(request.verb == "DELETE" && r.dropsDeletions)
                && (request.bearer.None? || request.bearer.value !in r.accounts) ==>
                e == Fails(Recorded(r, request), 401, "UNAUTHENTICATED"))
  {
  }

  /** Of an account's requests those to register, for a challenge and for a deletion are served, and no other. */
  predicate IsFrom(r: Registry, request: Request, userId: string) {
    request.bearer.Some? && request.bearer.value in r.accounts && r.accounts[request.bearer.value] == userId
  }

  lemma ServesNoOther(p: Platform, r: Registry, request: Request, drawn: nonceBytes, userId: string)
    requires IsFrom(r, request, userId) && "/devices" <= request.path && request.verb != "DELETE"
    requires !(request.verb == "POST" && request.path in {"/devices", "/devices/challenge"})
    ensures Receive(p, r, request, drawn) == Fails(Recorded(r, request), 404, "NOT_FOUND")
  {
  }

  /** A challenge is the text of the bytes drawn; it is live for the account unless it is to expire. */
  lemma AnswersChallenge(p: Platform, r: Registry, request: Request, drawn: nonceBytes, userId: string)
    requires IsFrom(r, request, userId) && request.verb == "POST" && request.path == "/devices/challenge"
    ensures var e, nonce, to := Receive(p, r, request, drawn), ToUrl(p.base64, drawn), Recorded(r, request);
            && e.reply == Replied(201, Issue(nonce))
            && if r.challengesToExpire > 0 then
                 e.registry == to.(challengesToExpire := r.challengesToExpire - 1) && e.entries == [Expired(nonce)]
               else
                 && e.registry == to.(liveNonces := r.liveNonces[nonce := userId])
                 && e.entries == [Issued(nonce, userId, drawn, nonce in r.liveNonces)]
  {
  }

  /**
   The fields of a registration: a key of 32 bytes, a nonce, and a signature of 64 bytes;
   the second key is only asked for.
   */
  predicate HasFields(p: Platform, body: Option<map<string, string>>, f: Fields) {
    && body.Some? && "x25519PublicKey" in body.value
    && "ed25519PublicKey" in body.value && body.value["ed25519PublicKey"] == f.key
    && "nonce" in body.value && body.value["nonce"] == f.nonce
    && "signature" in body.value && FromUrl(p.base64, body.value["signature"]) == Some(f.signature) && |f.signature| == 64
    && FromUrl(p.base64, f.key) == Some(f.keyBytes) && |f.keyBytes| == 32
    && FromUrl(p.base64, f.nonce) == Some(f.nonceBytes)
  }

  lemma ReadsExactlyTheFields(p: Platform, body: Option<map<string, string>>, f: Fields)
    ensures ReadFields(p, body) == Some(f) <==> HasFields(p, body, f)
  {
  }

  /** The signature that is judged: its lowest bit flipped when signatures are tampered with. */
  function Judged(r: Registry, signature: bytes): bytes
    requires |signature| == 64
  {
    if !r.tampersSignatures then signature
    else signature[0 := if signature[0] % 2 == 0 then signature[0] + 1 else signature[0] - 1]
  }

  lemma FlipsTheLowestBit(signature: bytes)
    requires |signature| > 0
    ensures FlipFirst(signature)
         == signature[0 := if signature[0] % 2 == 0 then signature[0] + 1 else signature[0] - 1]
  {
    var a, u := Bits.Halves(signature[0]);
    Bits.XorDigit(a, u, 0, 1);
    XorNothing(a);
  }

  lemma {:induction false} XorNothing(x: nat)
    ensures Bits.Xor(x, 0) == x
  {
    if x > 0 {
      var a, u := Bits.Halves(x);
      Bits.XorDigit(a, u, 0, 0);
      XorNothing(a);
    }
  }

  /** The key signed the label, the account, the key itself and the nonce, one behind the other. */
  predicate IsProven(p: Platform, r: Registry, f: Fields, userId: string)
    requires |f.signature| == 64
  {
    && p.isKey(f.keyBytes)
    && p.isValidSignature(f.keyBytes, Judged(r, f.signature),
         p.utf8("kiroshi-device-register-v1") + p.utf8(userId) + f.keyBytes + f.nonceBytes)
  }

  /** A registration that is refused, and what it spends. */
  lemma RefusesRegistration(p: Platform, r: Registry, request: Request, drawn: nonceBytes, userId: string, f: Fields)
    requires IsFrom(r, request, userId) && request.verb == "POST" && request.path == "/devices"
    ensures var e, to := Receive(p, r, request, drawn), Recorded(r, request);
            && ((forall g :: !HasFields(p, request.body, g)) ==> e == Fails(to, 400, "VALIDATION_ERROR"))
            && (HasFields(p, request.body, f) ==>
                var spent := to.(liveNonces := r.liveNonces - {f.nonce});
                && (f.nonce !in r.liveNonces ==> e == Fails(to, 400, "DEVICE_CHALLENGE_INVALID"))
                && (f.nonce in r.liveNonces && r.liveNonces[f.nonce] != userId ==>
                    e == Effect(spent, Replied(400, Failure("DEVICE_CHALLENGE_INVALID")), [Burnt(f.nonce)]))
                && (f.nonce in r.liveNonces && r.liveNonces[f.nonce] == userId && !IsProven(p, r, f, userId) ==>
                    e == Effect(spent, Replied(403, Failure("DEVICE_PROOF_INVALID")), [Burnt(f.nonce)])))
  {
    if ReadFields(p, request.body).Some? {
      ReadsExactlyTheFields(p, request.body, ReadFields(p, request.body).value);
    }
    if HasFields(p, request.body, f) {
      ReadsExactlyTheFields(p, request.body, f);
      FlipsTheLowestBit(f.signature);
    }
  }

  /** A registration that is proven: a new device for a new text of a key, or the one it has, moved to the account. */
  lemma AnswersRegistration(p: Platform, r: Registry, request: Request, drawn: nonceBytes, userId: string, f: Fields)
    requires IsFrom(r, request, userId) && request.verb == "POST" && request.path == "/devices"
    requires HasFields(p, request.body, f) && f.nonce in r.liveNonces && r.liveNonces[f.nonce] == userId
    requires IsProven(p, r, f, userId)
    ensures var e := Receive(p, r, request, drawn);
            var spent := Recorded(r, request).(liveNonces := r.liveNonces - {f.nonce});
            var proof := Proof(userId, f.keyBytes, f.nonceBytes, Judged(r, f.signature));
            if f.key in r.devices then
              var id, moved := r.devices[f.key].id, r.devices[f.key].userId != userId;
              && e.registry == spent.(devices := r.devices[f.key := Device(id, userId)])
              && e.reply == Replied(200, Registration(id, moved))
              && e.entries == [Registered(f.key, Device(id, userId), f.nonce, moved, proof)]
            else
              var id := "device-" + Numerals.Show(r.nextDevice, 10);
              && e.registry == spent.(devices := r.devices[f.key := Device(id, userId)], nextDevice := r.nextDevice + 1)
              && e.reply == Replied(201, Registration(id, false))
              && e.entries == [Registered(f.key, Device(id, userId), f.nonce, false, proof)]
  {
    ReadsExactlyTheFields(p, request.body, f);
    FlipsTheLowestBit(f.signature);
  }

  /** A deletion takes the caller's device of the id behind "/devices/", if there is one. */
  lemma AnswersDeletion(p: Platform, r: Registry, request: Request, drawn: nonceBytes, userId: string)
    requires IsFrom(r, request, userId) && "/devices" <= request.path && request.verb == "DELETE" && !r.dropsDeletions
    ensures var e, to := Receive(p, r, request, drawn), Recorded(r, request);
            var device := Device(if |request.path| > |"/devices/"| then request.path[|"/devices/"|..] else "", userId);
            if exists key :: key in r.devices && r.devices[key] == device then
              && e.reply == Replied(204, Empty)
              && exists key :: key in r.devices && r.devices[key] == device
                               && e.registry == to.(devices := r.devices - {key})
                               && e.entries == [Deleted(key, device, userId)]
            else e == Fails(to, 404, "NOT_FOUND")
  {
  }

  /** What the registry is told to do. */
  lemma DoesAsTold(p: Platform, r: Registry, count: int)
    ensures Step(p, r, Event.ExpireChallenges(count)) == Effect(r.(challengesToExpire := count), Forwarded, [])
    ensures Step(p, r, Event.TamperSignatures) == Effect(r.(tampersSignatures := true), Forwarded, [])
    ensures Step(p, r, Event.DropDeletions) == Effect(r.(dropsDeletions := true), Forwarded, [])
  {
  }

  /** A run is its steps one after the other. */
  lemma RunsStepByStep(p: Platform, r: Registry, event: Event, rest: seq<Event>)
    ensures Run(p, r, []).registry == r && Run(p, r, []).entries == []
    ensures var e, run := Step(p, r, event), Run(p, r, [event] + rest);
            var after := Run(p, e.registry, rest);
            run.registry == after.registry && run.entries == e.entries + after.entries
  {
    assert ([event] + rest)[1..] == rest;
  }
}
