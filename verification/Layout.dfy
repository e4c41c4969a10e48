/**
 Frames and boxes byte by byte: what stands where in the authenticated header, under
 which key and nonce the body is sealed, and what is signed. Both sides of a frame, the
 generator's and the app's, are this.
 */
module Layout {
  import opened Common
  import opened Numerals
  import Aead
  import opened Frames
  import opened RelayCrypto
  import Rfc8439

  /** A number in `width` bytes, the most significant first. */
  function Big(n: nat, width: nat): (b: bytes)
    ensures |b| == width
  {
    seq(width, i requires 0 <= i < width => Rfc8439.ByteOf(n, width - 1 - i))
  }

  /**
   Version, instance behind its length, sender, addressee, key, counter and challenge;
   what may be missing stands behind a flag.
   */
  function Authenticated(h: Header): bytes {
    [2] + Big(|h.instance|, 2) + h.instance + h.from
    + (if h.to.Some? then [1] + h.to.value else [0])
    + Big(h.keyId, 4) + Big(h.ctr, 8)
    + (if h.challenge.Some? then [1] + h.challenge.value else [0])
  }

  /** Four bytes of zeros, then the counter. */
  function NonceOf(ctr: nat): (n: bytes)
    ensures |n| == 12
  {
    [0, 0, 0, 0] + Big(ctr, 8)
  }

  function KeyOf(p: Primitives, spaceKey: bytes, h: Header): key {
    p.hkdf(spaceKey, p.sha256(Ascii("kiroshi/v2/subkey")), Ascii("kiroshi/v2") + Big(h.keyId, 4) + h.from)
  }

  /** The nonce, and behind it the plaintext sealed as RFC 8439 does. */
  function Ciphertext(key: key, nonce: bytes, plaintext: bytes, aad: bytes): bytes
    requires |nonce| == 12
  {
    nonce + Rfc8439.Sealed(Rfc8439.BlocksOf(key, nonce), plaintext, aad)
  }

  lemma BigEndianIsBig(n: nat, width: nat)
    ensures BigEndianBytes(n, width) == Big(n, width)
  {
    forall i | 0 <= i < width
      ensures BigEndianBytes(n, width)[i] == Big(n, width)[i]
    {
      BigEndianByteAt(n, width, i);
    }
  }

  lemma OneByOne(a: bytes, b: bytes, c: bytes, d: bytes, rest: bytes)
    ensures a + (b + (c + (d + rest))) == a + b + c + d + rest
  {
    Associates(c, d, rest);
    Associates(b, c + d, rest);
    Associates(a, b + (c + d), rest);
    Associates(b, c, d);
    Associates(a, b + c, d);
    Associates(a, b, c);
  }

  lemma FourMore(front: bytes, a: bytes, b: bytes, c: bytes, d: bytes)
    ensures front + (a + (b + (c + d))) == front + a + b + c + d
  {
    Associates(front, a, b + (c + d));
    Associates(front + a, b, c + d);
    Associates(front + a + b, c, d);
  }

  lemma HeaderIs(h: Header)
    ensures Aad(h) == Authenticated(h)
  {
    var n, k, c := Big(|h.instance|, 2), Big(h.keyId, 4), Big(h.ctr, 8);
    BigEndianIsBig(|h.instance|, 2);
    BigEndianIsBig(h.keyId, 4);
    BigEndianIsBig(h.ctr, 8);
    OneByOne([2], n, h.instance, h.from, AddressedPart(h));
    FourMore([2] + n + h.instance + h.from, Optional(h.to), k, c, Optional(h.challenge));
  }

  lemma NonceIs(ctr: nat)
    ensures Nonce(ctr) == NonceOf(ctr)
  {
    BigEndianIsBig(ctr, 8);
  }

  lemma KeyIs(p: Primitives, spaceKey: bytes, h: Header)
    ensures Subkey(p, spaceKey, h.keyId, h.from) == KeyOf(p, spaceKey, h)
  {
    BigEndianIsBig(h.keyId, 4);
  }

  lemma BodyIs(key: key, nonce: bytes, plaintext: bytes, aad: bytes)
    requires |nonce| == 12 && Aead.IsBuffer(aad) && Aead.IsBuffer(plaintext)
    ensures Body(key, nonce, plaintext, aad) == Ciphertext(key, nonce, plaintext, aad)
  {
    Rfc8439.SealedIsTheRfcs(key, nonce, plaintext, aad);
  }

  /**
   The frame of a header: its bytes, the body sealed under the key and the nonce that the
   header tells, and a signature over both. It throws for a number its field cannot
   hold, and for a signature that does not verify.
   */
  lemma FrameIs(p: Primitives, spaceKey: bytes, seed: bytes, h: Header, plaintext: bytes)
    requires Aead.IsBuffer(Aad(h)) && Aead.IsBuffer(plaintext)
    ensures var aad, key := Authenticated(h), KeyOf(p, spaceKey, h);
            var ciphertext := Ciphertext(key, NonceOf(h.ctr), plaintext, aad);
            var sig := p.sign(seed, aad + ciphertext);
            FrameSpec(p, spaceKey, seed, h, plaintext)
            == if |h.instance| >= 0x1_0000 || h.keyId >= 0x1_0000_0000 || h.ctr >= 0x1_0000_0000_0000_0000 then
                 Err(OutOfRange)
               else if p.verify(p.signingPublic(seed), aad + ciphertext, sig) then Ok(Frame(key, aad, ciphertext, sig))
               else Err(SignatureDoesNotVerify)
  {
    HeaderIs(h);
    NonceIs(h.ctr);
    KeyIs(p, spaceKey, h);
    BodyIs(KeyOf(p, spaceKey, h), NonceOf(h.ctr), plaintext, Aad(h));
  }

  /** A sealed box: ephemeral key, nonce, and the plaintext sealed under the secret of both keys. */
  lemma BoxIs(p: Primitives, ephemeral: bytes, nonce: bytes, recipientPublic: bytes, plaintext: bytes)
    requires |nonce| == 12 && Aead.IsBuffer(plaintext)
    ensures var public := p.agreementPublic(ephemeral);
            var key := p.hkdf(p.x25519(ephemeral, recipientPublic), public + recipientPublic, Ascii("kiroshi/v2/sealed-box"));
            BoxSpec(p, ephemeral, nonce, recipientPublic, plaintext) == public + Ciphertext(key, nonce, plaintext, [])
  {
    var public := p.agreementPublic(ephemeral);
    var shared := p.x25519(ephemeral, recipientPublic);
    BoxOf(public, nonce, plaintext, BoxKey(p, shared, public, recipientPublic));
  }

  lemma BoxOf(public: bytes, nonce: bytes, plaintext: bytes, key: key)
    requires |nonce| == 12 && Aead.IsBuffer(plaintext)
    ensures public + nonce + Aead.Sealed(key, nonce, plaintext, []) == public + Ciphertext(key, nonce, plaintext, [])
  {
    BodyIs(key, nonce, plaintext, []);
    Regroup(public, nonce, Aead.Sealed(key, nonce, plaintext, []));
  }

  // ------------------------------------------------------------------- the app's side

  /** A header exists for a short name, ids of sixteen bytes, a counter below 2^53 and a challenge of 32 bytes. */
  lemma HeadersAre(h: Header)
    ensures IsHeader(h) <==>
            && |h.instance| <= 0xffff && |h.from| == 16 && (h.to.Some? ==> |h.to.value| == 16)
            && h.keyId <= 0xffff_ffff && h.ctr < 0x20_0000_0000_0000 && (h.challenge.Some? ==> |h.challenge.value| == 32)
  {
  }

  /**
   A point of small order, its top bit cleared: y is 0, 1 or -1 modulo 2^255 - 19, 0 and 1
   also unreduced, or one of the two of order eight.
   */
  lemma SmallOrderIs(point: bytes)
    requires |point| == 32
    ensures HasSmallOrder(point) <==>
            Hex(point[31 := if point[31] < 128 then point[31] else point[31] - 128]) in [
              "0000000000000000000000000000000000000000000000000000000000000000",
              "0100000000000000000000000000000000000000000000000000000000000000",
              "26e8958fc2b227b045c3f489f2ef98f0d5dfac05d3c63339b13802886d53fc05",
              "c7176a703d4dd84fba3c0b760d10670f2a2053fa2c39ccc64ec7fd7792ac037a",
              "ecffffffffffffffffffffffffffffffffffffffffffffffffffffffffffff7f",
              "edffffffffffffffffffffffffffffffffffffffffffffffffffffffffffff7f",
              "eeffffffffffffffffffffffffffffffffffffffffffffffffffffffffffff7f"]
  {
    assert point[31] % 128 == if point[31] < 128 then point[31] else point[31] - 128;
  }

  /** A signature of 64 bytes, by a key and with a point that are not of small order, that verifies. */
  predicate IsStrict(p: Primitives, sig: bytes, message: bytes, sender: bytes) {
    && |sig| == 64 && p.verify(sender, message, sig) && !HasSmallOrder(sender) && !HasSmallOrder(sig[..32])
  }

  lemma BodyOpens(key: key, nonce: bytes, ciphertext: bytes, aad: bytes)
    requires |nonce| == 12 && Aead.IsBuffer(aad) && Aead.IsBuffer(ciphertext)
    ensures var r := OpenBody(key, nonce, ciphertext, aad);
            if |ciphertext| < 28 then r == Err(Truncated)
            else if ciphertext[..12] != nonce then r == Err(NonceMismatch)
            else if r.Err? then r == Err(Unauthentic)
            else Aead.IsBuffer(r.value) && ciphertext == Body(key, nonce, r.value, aad)
  {
    var r := OpenBody(key, nonce, ciphertext, aad);
    if r.Ok? {
      assert |r.value| <= |ciphertext|;
      OpensExactlyBodies(key, nonce, ciphertext, aad, r.value);
    }
  }

  /**
   In which order the app refuses a frame: as a replay, by its sender, by its signature,
   by its length, by its nonce, and by its tag.
   */
  lemma RefusesInOrder(p: Primitives, spaceKey: bytes, h: Header, ciphertext: bytes, sig: bytes,
      last: nat, sender: bytes)
    requires IsHeader(h) && Aead.IsBuffer(Aad(h)) && Aead.IsBuffer(ciphertext)
    ensures var r := OpenFrame(p, spaceKey, h, ciphertext, sig, last, sender);
            var key, nonce := KeyOf(p, spaceKey, h), NonceOf(h.ctr);
            if h.ctr <= last then r == Err(Replay)
            else if h.from != p.sha256(sender)[..16] then r == Err(ForeignSender)
            else if !IsStrict(p, sig, Authenticated(h) + ciphertext, sender) then r == Err(ForgedSignature)
            else if |ciphertext| < 28 then r == Err(Truncated)
            else if ciphertext[..12] != nonce then r == Err(NonceMismatch)
            else if r.Err? then r == Err(Unauthentic)
            else ciphertext == Ciphertext(key, nonce, r.value, Authenticated(h))
  {
    HeaderIs(h);
    NonceIs(h.ctr);
    KeyIs(p, spaceKey, h);
    var r, key, nonce := OpenFrame(p, spaceKey, h, ciphertext, sig, last, sender), KeyOf(p, spaceKey, h), NonceOf(h.ctr);
    BodyOpens(key, nonce, ciphertext, Aad(h));
    if r.Ok? {
      BodyIs(key, nonce, r.value, Aad(h));
    }
  }

  lemma ZerosAreNoSecret(shared: bytes)
    ensures IsContributory(shared) <==> shared != seq(|shared|, _ => 0)
  {
    if b :| b in shared && b != 0 {
      var i :| 0 <= i < |shared| && shared[i] == b;
      assert seq(|shared|, _ => 0)[i] != shared[i];
    } else {
      assert forall i :: 0 <= i < |shared| ==> shared[i] in shared;
    }
  }

  /** In which order a box is refused: by its length, by a secret of zeros, and by its tag. */
  lemma RefusesBoxesInOrder(p: Primitives, secret: bytes, sealed: bytes)
    requires Aead.IsBuffer(sealed)
    ensures var r := OpenBox(p, secret, sealed);
            if |sealed| < 60 then r == Err(BoxTruncated)
            else
              var shared := p.x25519(secret, sealed[..32]);
              if shared == seq(|shared|, _ => 0) then r == Err(NonContributory)
              else
                var key := p.hkdf(shared, sealed[..32] + p.agreementPublic(secret), Ascii("kiroshi/v2/sealed-box"));
                r == match Aead.Open(key, sealed[32..44], sealed[44..], [])
                     case Some(plaintext) => Ok(plaintext)
                     case None => Err(BoxUnauthentic)
  {
    if |sealed| >= 60 {
      ZerosAreNoSecret(p.x25519(secret, sealed[..32]));
    }
  }
}
