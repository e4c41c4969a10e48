/**
 The app's side of sealed frames and boxes: which headers exist, and in which order
 opening refuses. Device ids are the sixteen bytes their hexadecimal text stands for.
 */
module RelayCrypto {
  import opened Common
  import opened Numerals
  import opened Aead
  import opened Frames

  const COUNTER_LIMIT: nat := 0x20_0000_0000_0000

  /** Where `FrameHeader.init?` gives a header. */
  predicate IsHeader(h: Header) {
    |h.instance| < TWO_16 && HasWidths(h) && h.keyId < TWO_32 && h.ctr < COUNTER_LIMIT
  }

  // ---------------------------------------------------------------- strict signatures

  /** The points of small order, their top bit cleared. */
  const SMALL_ORDER: seq<string> := [
    "0000000000000000000000000000000000000000000000000000000000000000",
    "0100000000000000000000000000000000000000000000000000000000000000",
    "26e8958fc2b227b045c3f489f2ef98f0d5dfac05d3c63339b13802886d53fc05",
    "c7176a703d4dd84fba3c0b760d10670f2a2053fa2c39ccc64ec7fd7792ac037a",
    "ecffffffffffffffffffffffffffffffffffffffffffffffffffffffffffff7f",
    "edffffffffffffffffffffffffffffffffffffffffffffffffffffffffffff7f",
    "eeffffffffffffffffffffffffffffffffffffffffffffffffffffffffffff7f"]

  predicate HasSmallOrder(point: bytes) {
    |point| != 32 || Hex(point[31 := point[31] % 128]) in SMALL_ORDER
  }

  predicate IsStrictlyValid(p: Primitives, sig: bytes, message: bytes, signingKey: bytes) {
    && |sig| == 64
    && !HasSmallOrder(signingKey)
    && !HasSmallOrder(sig[..32])
    && p.verify(signingKey, message, sig)
  }

  // ------------------------------------------------------------------------- frames

  datatype Refusal = Replay | ForeignSender | ForgedSignature | Truncated | NonceMismatch | Unauthentic

  /** `open`. */
  function OpenFrame(p: Primitives, spaceKey: bytes, h: Header, ciphertext: bytes, sig: bytes,
      lastAccepted: nat, sender: bytes): Result<bytes, Refusal>
    requires IsHeader(h) && IsBuffer(Aad(h)) && IsBuffer(ciphertext)
  {
    if h.ctr <= lastAccepted then Err(Replay)
    else if h.from != p.sha256(sender)[..16] then Err(ForeignSender)
    else if !IsStrictlyValid(p, sig, Aad(h) + ciphertext, sender) then Err(ForgedSignature)
    else OpenBody(Subkey(p, spaceKey, h.keyId, h.from), Nonce(h.ctr), ciphertext, Aad(h))
  }

  /** Its end: the ciphertext under the key and the nonce that the header tells. */
  function OpenBody(subkey: key, nonce: bytes, ciphertext: bytes, aad: bytes): Result<bytes, Refusal>
    requires |nonce| == 12 && IsBuffer(aad) && IsBuffer(ciphertext)
  {
    if |ciphertext| < 28 then Err(Truncated)
    else if ciphertext[..12] != nonce then Err(NonceMismatch)
    else
      match Open(subkey, nonce, ciphertext[12..], aad)
      case Some(plaintext) => Ok(plaintext)
      case None => Err(Unauthentic)
  }

  lemma OpensBody(subkey: key, nonce: bytes, plaintext: bytes, aad: bytes)
    requires |nonce| == 12 && IsBuffer(aad) && |plaintext| + 28 < TWO_64
    ensures var ciphertext := Body(subkey, nonce, plaintext, aad);
            IsBuffer(ciphertext) && OpenBody(subkey, nonce, ciphertext, aad) == Ok(plaintext)
  {
    var ciphertext, sealed := Body(subkey, nonce, plaintext, aad), Sealed(subkey, nonce, plaintext, aad);
    assert ciphertext[..12] == nonce && ciphertext[12..] == sealed;
    OpensTheSealed(subkey, nonce, plaintext, aad);
  }

  lemma OpensExactlyBodies(subkey: key, nonce: bytes, ciphertext: bytes, aad: bytes, plaintext: bytes)
    requires |nonce| == 12 && IsBuffer(aad) && IsBuffer(ciphertext) && |plaintext| + 28 < TWO_64
    ensures OpenBody(subkey, nonce, ciphertext, aad) == Ok(plaintext)
            <==> ciphertext == Body(subkey, nonce, plaintext, aad)
  {
    if |ciphertext| >= 28 && ciphertext[..12] == nonce {
      var body := ciphertext[12..];
      assert ciphertext == nonce + body;
      OpensExactlyTheSealed(subkey, nonce, plaintext, body, aad);
    }
    OpensBody(subkey, nonce, plaintext, aad);
  }

  /**
   The app opens the generator's frame of a sender's own device id to its plaintext
   under a smaller last accepted counter, refuses it as a replay under any other, and
   refuses its signature only where it is not strictly valid.
   */
  lemma FrameOpens(p: Primitives, spaceKey: bytes, seed: bytes, h: Header, plaintext: bytes, lastAccepted: nat)
    requires IsHeader(h) && IsBuffer(Aad(h)) && |plaintext| + 28 < TWO_64
    requires FrameSpec(p, spaceKey, seed, h, plaintext).Ok?
    requires h.from == p.sha256(p.signingPublic(seed))[..16]
    ensures var f, sender := FrameSpec(p, spaceKey, seed, h, plaintext).value, p.signingPublic(seed);
            && IsBuffer(f.ciphertext)
            && OpenFrame(p, spaceKey, h, f.ciphertext, f.sig, lastAccepted, sender)
            == if h.ctr <= lastAccepted then Err(Replay)
               else if !IsStrictlyValid(p, f.sig, f.aad + f.ciphertext, sender) then Err(ForgedSignature)
               else Ok(plaintext)
  {
    OpensBody(Subkey(p, spaceKey, h.keyId, h.from), Nonce(h.ctr), plaintext, Aad(h));
  }

  /**
   What the app opens, and only that: a newer frame of the sender, strictly signed,
   whose body is the one that sealing its plaintext under its header gives.
   */
  lemma OpensExactlySealedFrames(p: Primitives, spaceKey: bytes, h: Header, ciphertext: bytes, sig: bytes,
      lastAccepted: nat, sender: bytes, plaintext: bytes)
    requires IsHeader(h) && IsBuffer(Aad(h)) && IsBuffer(ciphertext) && |plaintext| + 28 < TWO_64
    ensures OpenFrame(p, spaceKey, h, ciphertext, sig, lastAccepted, sender) == Ok(plaintext) <==>
            && h.ctr > lastAccepted && h.from == p.sha256(sender)[..16]
            && IsStrictlyValid(p, sig, Aad(h) + ciphertext, sender)
            && ciphertext == Body(Subkey(p, spaceKey, h.keyId, h.from), Nonce(h.ctr), plaintext, Aad(h))
  {
    OpensExactlyBodies(Subkey(p, spaceKey, h.keyId, h.from), Nonce(h.ctr), ciphertext, Aad(h), plaintext);
  }

  // -------------------------------------------------------------------------- boxes

  datatype BoxRefusal = NonContributory | BoxTruncated | BoxUnauthentic

  /** A shared secret of zeros alone is no secret. */
  predicate IsContributory(shared: bytes) { exists b :: b in shared && b != 0 }

  /** `openBox`: 32 bytes of ephemeral key, 12 of nonce, the ciphertext, 16 of tag. */
  function OpenBox(p: Primitives, secret: bytes, sealed: bytes): Result<bytes, BoxRefusal>
    requires IsBuffer(sealed)
  {
    if |sealed| < 60 then Err(BoxTruncated)
    else
      var ephemeralPublic, nonce := sealed[..32], sealed[32..44];
      var shared := p.x25519(secret, ephemeralPublic);
      if !IsContributory(shared) then Err(NonContributory)
      else
        match Open(BoxKey(p, shared, ephemeralPublic, p.agreementPublic(secret)), nonce, sealed[44..], [])
        case Some(plaintext) => Ok(plaintext)
        case None => Err(BoxUnauthentic)
  }

  /** Both sides of a key agreement compute the same secret. */
  predicate Agree(p: Primitives, a: bytes, b: bytes) {
    p.x25519(a, p.agreementPublic(b)) == p.x25519(b, p.agreementPublic(a))
  }

  /** The recipient opens a sealed box to its plaintext, of any length, exactly when the secret is contributory. */
  lemma BoxOpens(p: Primitives, ephemeral: bytes, nonce: bytes, secret: bytes, plaintext: bytes)
    requires |nonce| == 12 && |plaintext| + 60 < TWO_64
    requires Agree(p, ephemeral, secret)
    ensures var sealed := BoxSpec(p, ephemeral, nonce, p.agreementPublic(secret), plaintext);
            && IsBuffer(sealed)
            && OpenBox(p, secret, sealed)
            == if IsContributory(p.x25519(ephemeral, p.agreementPublic(secret))) then Ok(plaintext)
               else Err(NonContributory)
  {
    var sealed := BoxSpec(p, ephemeral, nonce, p.agreementPublic(secret), plaintext);
    var ephemeralPublic := p.agreementPublic(ephemeral);
    var key := BoxKey(p, p.x25519(ephemeral, p.agreementPublic(secret)), ephemeralPublic, p.agreementPublic(secret));
    var body := Sealed(key, nonce, plaintext, []);
    assert sealed[..32] == ephemeralPublic && sealed[32..44] == nonce && sealed[44..] == body;
    OpensTheSealed(key, nonce, plaintext, []);
  }

  /** Behind the ephemeral key and the nonce of a box that opens is the one body that sealing its plaintext gives. */
  lemma OpenedBoxesAreSealed(p: Primitives, secret: bytes, sealed: bytes, plaintext: bytes)
    requires IsBuffer(sealed) && IsBuffer(plaintext) && OpenBox(p, secret, sealed) == Ok(plaintext)
    ensures |sealed| >= 60
    ensures var ephemeralPublic, nonce := sealed[..32], sealed[32..44];
            var key := BoxKey(p, p.x25519(secret, ephemeralPublic), ephemeralPublic, p.agreementPublic(secret));
            sealed[44..] == Sealed(key, nonce, plaintext, [])
  {
    var ephemeralPublic, nonce, body := sealed[..32], sealed[32..44], sealed[44..];
    var key := BoxKey(p, p.x25519(secret, ephemeralPublic), ephemeralPublic, p.agreementPublic(secret));
    OpensOnlyTheSealed(key, nonce, plaintext, body, []);
  }
}
