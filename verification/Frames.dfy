/**
 The sealed frame: its header as associated data, the nonce derived from its
 counter, its body and its signature, and the sealed box of a join.
 */
module Frames {
  import opened Common
  import opened Numerals
  import opened Aead

  type key = b: bytes | |b| == 32 witness Zeros(32)

  /**
   The primitives the generator takes from its platform. Keys HKDF derives are 32
   bytes long; nothing else is assumed here.
   */
  datatype Primitives = Primitives(
    sha256: bytes -> key,
    hkdf: (bytes, bytes, bytes) -> key,
    sign: (bytes, bytes) -> bytes,
    verify: (bytes, bytes, bytes) -> bool,
    signingPublic: bytes -> bytes,
    x25519: (bytes, bytes) -> bytes,
    agreementPublic: bytes -> key)

  /** A header, with its instance name as the UTF-8 bytes that are sealed. */
  datatype Header = Header(
    instance: bytes, from: bytes, to: Option<bytes>, keyId: nat, ctr: nat, challenge: Option<bytes>)

  // ------------------------------------------------------------------------ header

  /** `optional`. */
  function Optional(field: Option<bytes>): bytes {
    match field
    case Some(b) => [1] + b
    case None => [0]
  }

  /** What the integer writers of a Buffer accept; they throw on anything larger. */
  predicate FitsWriters(h: Header) {
    |h.instance| < TWO_16 && h.keyId < TWO_32 && h.ctr < TWO_64
  }

  /** The bytes of a header, field after field. */
  function Aad(h: Header): bytes {
    [2] + (BigEndianBytes(|h.instance|, 2) + (h.instance + (h.from + AddressedPart(h))))
  }

  /** The bytes of a header from its addressee on. */
  function AddressedPart(h: Header): bytes {
    Optional(h.to) + (BigEndianBytes(h.keyId, 4) + (BigEndianBytes(h.ctr, 8) + Optional(h.challenge)))
  }

  datatype Failure = OutOfRange | SignatureDoesNotVerify

  /** `aadOf`. */
  function AadOf(h: Header): Result<bytes, Failure> {
    if FitsWriters(h) then Ok(Aad(h)) else Err(OutOfRange)
  }

  /** The field widths every caller gives: 16-byte device ids, a 32-byte challenge. */
  predicate HasWidths(h: Header) {
    && |h.from| == 16
    && (h.to.Some? ==> |h.to.value| == 16)
    && (h.challenge.Some? ==> |h.challenge.value| == 32)
  }

  // ------------------------------------------------------------------------ parser

  /** The first n bytes and what follows them. */
  function Take(s: bytes, n: nat): Option<(bytes, bytes)> {
    if n <= |s| then Some((s[..n], s[n..])) else None
  }

  function TakeNumber(s: bytes, width: nat): Option<(nat, bytes)> {
    match Take(s, width)
    case Some((digits, rest)) => Some((BigEndianSum(digits), rest))
    case None => None
  }

  function TakeOptional(s: bytes, width: nat): Option<(Option<bytes>, bytes)> {
    if s == [] then None
    else if s[0] == 0 then Some((None, s[1..]))
    else if s[0] != 1 then None
    else
      match Take(s[1..], width)
      case Some((field, rest)) => Some((Some(field), rest))
      case None => None
  }

  /** Reads a header back from the front of signed bytes, and what follows it. */
  function Parse(s: bytes): Option<(Header, bytes)> {
    match TakeNumber(s, 1)
    case None => None
    case Some((version, s1)) =>
      if version != 2 then None else
      match TakeNumber(s1, 2)
      case None => None
      case Some((length, s2)) =>
        match Take(s2, length)
        case None => None
        case Some((instance, s3)) =>
          match Take(s3, 16)
          case None => None
          case Some((from, s4)) => ParseAddressed(instance, from, s4)
  }

  function ParseAddressed(instance: bytes, from: bytes, s: bytes): Option<(Header, bytes)> {
    match TakeOptional(s, 16)
    case None => None
    case Some((to, s1)) =>
      match TakeNumber(s1, 4)
      case None => None
      case Some((keyId, s2)) =>
        match TakeNumber(s2, 8)
        case None => None
        case Some((ctr, s3)) =>
          match TakeOptional(s3, 32)
          case None => None
          case Some((challenge, rest)) => Some((Header(instance, from, to, keyId, ctr, challenge), rest))
  }

  lemma TakeExactly(a: bytes, rest: bytes)
    ensures Take(a + rest, |a|) == Some((a, rest))
  {
  }

  lemma TakesNumber(n: nat, width: nat, rest: bytes)
    requires n < Pow(256, width)
    ensures TakeNumber(BigEndianBytes(n, width) + rest, width) == Some((n, rest))
  {
    BigEndianRoundTrip(n, width);
    TakeExactly(BigEndianBytes(n, width), rest);
  }

  lemma TakesOptional(field: Option<bytes>, width: nat, rest: bytes)
    requires field.Some? ==> |field.value| == width
    ensures TakeOptional(Optional(field) + rest, width) == Some((field, rest))
  {
    match field {
      case Some(b) =>
        assert (Optional(field) + rest)[1..] == b + rest;
        TakeExactly(b, rest);
      case None =>
        assert (Optional(field) + rest)[1..] == rest;
    }
  }

  lemma FieldWidths()
    ensures Pow(256, 1) == 256 && Pow(256, 2) == TWO_16 && Pow(256, 4) == TWO_32 && Pow(256, 8) == TWO_64
  {
    assert Pow(256, 1) == 256 * Pow(256, 0);
    PowAdd(256, 1, 1);
    PowAdd(256, 2, 2);
    EightBytes();
  }

  lemma Regroup(a: bytes, b: bytes, c: bytes)
    ensures a + b + c == a + (b + c)
  {
  }

  lemma ParsesAddressedPart(h: Header, rest: bytes)
    requires FitsWriters(h) && HasWidths(h)
    ensures ParseAddressed(h.instance, h.from, AddressedPart(h) + rest) == Some((h, rest))
  {
    FieldWidths();
    var k, c, o := BigEndianBytes(h.keyId, 4), BigEndianBytes(h.ctr, 8), Optional(h.challenge);
    Regroup(Optional(h.to), k + (c + o), rest);
    Regroup(k, c + o, rest);
    Regroup(c, o, rest);
    TakesOptional(h.to, 16, k + (c + (o + rest)));
    TakesNumber(h.keyId, 4, c + (o + rest));
    TakesNumber(h.ctr, 8, o + rest);
    TakesOptional(h.challenge, 32, rest);
  }

  lemma ParsesHeader(h: Header, rest: bytes)
    requires FitsWriters(h) && HasWidths(h)
    ensures Parse(Aad(h) + rest) == Some((h, rest))
  {
    FieldWidths();
    var n, a := BigEndianBytes(|h.instance|, 2), AddressedPart(h);
    Regroup([2], n + (h.instance + (h.from + a)), rest);
    Regroup(n, h.instance + (h.from + a), rest);
    Regroup(h.instance, h.from + a, rest);
    Regroup(h.from, a, rest);
    assert BigEndianBytes(2, 1) == [2];
    TakesNumber(2, 1, n + (h.instance + (h.from + (a + rest))));
    TakesNumber(|h.instance|, 2, h.instance + (h.from + (a + rest)));
    TakeExactly(h.instance, h.from + (a + rest));
    TakeExactly(h.from, a + rest);
    ParsesAddressedPart(h, rest);
  }

  lemma NumberTaken(s: bytes, width: nat)
    requires TakeNumber(s, width).Some?
    ensures var (n, rest) := TakeNumber(s, width).value;
            n < Pow(256, width) && s == BigEndianBytes(n, width) + rest
  {
    BigEndianBytesOfSum(s[..width]);
    assert s == s[..width] + s[width..];
  }

  lemma OptionalTaken(s: bytes, width: nat)
    requires TakeOptional(s, width).Some?
    ensures var (field, rest) := TakeOptional(s, width).value;
            (field.Some? ==> |field.value| == width) && s == Optional(field) + rest
  {
    assert s == [s[0]] + s[1..];
    if s[0] == 1 {
      assert s[1..] == s[1..][..width] + s[1..][width..];
    }
  }

  lemma AddressedPartTaken(instance: bytes, from: bytes, s: bytes)
    requires ParseAddressed(instance, from, s).Some?
    ensures var (h, rest) := ParseAddressed(instance, from, s).value;
            && h.instance == instance && h.from == from
            && h.keyId < TWO_32 && h.ctr < TWO_64
            && (h.to.Some? ==> |h.to.value| == 16) && (h.challenge.Some? ==> |h.challenge.value| == 32)
            && s == AddressedPart(h) + rest
  {
    FieldWidths();
    OptionalTaken(s, 16);
    var (to, s1) := TakeOptional(s, 16).value;
    NumberTaken(s1, 4);
    var (keyId, s2) := TakeNumber(s1, 4).value;
    NumberTaken(s2, 8);
    var (ctr, s3) := TakeNumber(s2, 8).value;
    OptionalTaken(s3, 32);
    var (challenge, rest) := TakeOptional(s3, 32).value;
    var k, c, o := BigEndianBytes(keyId, 4), BigEndianBytes(ctr, 8), Optional(challenge);
    Regroup(c, o, rest);
    Regroup(k, c + o, rest);
    Regroup(Optional(to), k + (c + o), rest);
  }

  lemma Taken(s: bytes, n: nat)
    requires n <= |s|
    ensures s == s[..n] + s[n..]
  {
  }

  lemma HeaderTaken(s: bytes)
    requires Parse(s).Some?
    ensures var (h, rest) := Parse(s).value;
            FitsWriters(h) && HasWidths(h) && s == Aad(h) + rest
  {
    FieldWidths();
    NumberTaken(s, 1);
    assert BigEndianBytes(2, 1) == [2];
    var s1 := TakeNumber(s, 1).value.1;
    NumberTaken(s1, 2);
    var (length, s2) := TakeNumber(s1, 2).value;
    Taken(s2, length);
    var (instance, s3) := Take(s2, length).value;
    Taken(s3, 16);
    var (from, s4) := Take(s3, 16).value;
    AddressedPartTaken(instance, from, s4);
    var (h, rest) := ParseAddressed(instance, from, s4).value;
    var n, a := BigEndianBytes(length, 2), AddressedPart(h);
    Regroup(from, a, rest);
    Regroup(instance, from + a, rest);
    Regroup(n, instance + (from + a), rest);
    Regroup([2], n + (instance + (from + a)), rest);
  }

  /**
   The signed bytes of a frame split in exactly one way: into a header the writers
   accept, with its widths, and what follows its encoding.
   */
  lemma ParsesExactly(s: bytes, h: Header, rest: bytes)
    ensures Parse(s) == Some((h, rest)) <==> FitsWriters(h) && HasWidths(h) && s == Aad(h) + rest
  {
    if Parse(s) == Some((h, rest)) {
      HeaderTaken(s);
    } else if FitsWriters(h) && HasWidths(h) && s == Aad(h) + rest {
      ParsesHeader(h, rest);
    }
  }

  /** Two frames with the same signed bytes are the same frame. */
  lemma SignedBytesTellApart(h: Header, ciphertext: bytes, h': Header, ciphertext': bytes)
    requires FitsWriters(h) && HasWidths(h) && FitsWriters(h') && HasWidths(h')
    requires Aad(h) + ciphertext == Aad(h') + ciphertext'
    ensures h == h' && ciphertext == ciphertext'
  {
    ParsesHeader(h, ciphertext);
    ParsesHeader(h', ciphertext');
  }

  /** Without the widths they need not be: the optional fields carry no length. */
  lemma WidthsAreNeeded() returns (h: Header, h': Header)
    ensures FitsWriters(h) && FitsWriters(h') && h != h' && Aad(h) == Aad(h')
  {
    h := Header([], [], Some([0]), 0, 0, None);
    h' := Header([], [1], None, 0, 0, None);
  }

  // ------------------------------------------------------------------------- frame

  function SubkeyInfo(keyId: nat, deviceId: bytes): bytes {
    Ascii("kiroshi/v2") + BigEndianBytes(keyId, 4) + deviceId
  }

  /** `subkeyOf`. */
  function Subkey(p: Primitives, spaceKey: bytes, keyId: nat, deviceId: bytes): key {
    p.hkdf(spaceKey, p.sha256(Ascii("kiroshi/v2/subkey")), SubkeyInfo(keyId, deviceId))
  }

  /** Each key id and device has an HKDF input of its own. */
  lemma SubkeyInfoInjective(keyId: nat, deviceId: bytes, keyId': nat, deviceId': bytes)
    requires keyId < TWO_32 && keyId' < TWO_32
    ensures SubkeyInfo(keyId, deviceId) == SubkeyInfo(keyId', deviceId') <==> keyId == keyId' && deviceId == deviceId'
  {
    FieldWidths();
    var i, i' := SubkeyInfo(keyId, deviceId), SubkeyInfo(keyId', deviceId');
    assert i[10..14] == BigEndianBytes(keyId, 4) && i[14..] == deviceId;
    assert i'[10..14] == BigEndianBytes(keyId', 4) && i'[14..] == deviceId';
    BigEndianRoundTrip(keyId, 4);
    BigEndianRoundTrip(keyId', 4);
  }

  /** Four zero bytes and the counter. */
  function Nonce(ctr: nat): (n: bytes)
    ensures |n| == 12
  {
    Zeros(4) + BigEndianBytes(ctr, 8)
  }

  lemma NonceInjective(ctr: nat, ctr': nat)
    requires ctr < TWO_64 && ctr' < TWO_64
    ensures Nonce(ctr) == Nonce(ctr') <==> ctr == ctr'
  {
    FieldWidths();
    assert Nonce(ctr)[4..] == BigEndianBytes(ctr, 8) && Nonce(ctr')[4..] == BigEndianBytes(ctr', 8);
    BigEndianRoundTrip(ctr, 8);
    BigEndianRoundTrip(ctr', 8);
  }

  datatype Frame = Frame(subkey: key, aad: bytes, ciphertext: bytes, sig: bytes)

  /** The nonce in front of the sealed plaintext. */
  function Body(subkey: key, nonce: bytes, plaintext: bytes, aad: bytes): bytes
    requires |nonce| == 12 && IsBuffer(aad) && IsBuffer(plaintext)
  {
    nonce + Sealed(subkey, nonce, plaintext, aad)
  }

  function FrameSpec(p: Primitives, spaceKey: bytes, seed: bytes, h: Header, plaintext: bytes): Result<Frame, Failure>
    requires IsBuffer(Aad(h)) && IsBuffer(plaintext)
  {
    match AadOf(h)
    case Err(failure) => Err(failure)
    case Ok(aad) =>
      var subkey := Subkey(p, spaceKey, h.keyId, h.from);
      var ciphertext := Body(subkey, Nonce(h.ctr), plaintext, aad);
      var signed := aad + ciphertext;
      var sig := p.sign(seed, signed);
      if p.verify(p.signingPublic(seed), signed, sig) then Ok(Frame(subkey, aad, ciphertext, sig))
      else Err(SignatureDoesNotVerify)
  }

  /** `frameOf`. */
  method FrameOf(p: Primitives, spaceKey: bytes, seed: bytes, h: Header, plaintext: bytes)
    returns (r: Result<Frame, Failure>)
    requires IsBuffer(Aad(h)) && IsBuffer(plaintext)
    ensures r == FrameSpec(p, spaceKey, seed, h, plaintext)
  {
    var encoded := AadOf(h);
    if encoded.Err? {
      return Err(encoded.error);
    }
    var subkey := Subkey(p, spaceKey, h.keyId, h.from);
    var aad, nonce := encoded.value, Nonce(h.ctr);
    var body := Seal(subkey, nonce, plaintext, aad);
    var ciphertext := nonce + body;
    var signed := aad + ciphertext;
    var sig := p.sign(seed, signed);
    if !p.verify(p.signingPublic(seed), signed, sig) {
      return Err(SignatureDoesNotVerify);
    }
    r := Ok(Frame(subkey, aad, ciphertext, sig));
  }

  // -------------------------------------------------------------------- sealed box

  function BoxKey(p: Primitives, shared: bytes, ephemeralPublic: bytes, recipientPublic: bytes): key {
    p.hkdf(shared, ephemeralPublic + recipientPublic, Ascii("kiroshi/v2/sealed-box"))
  }

  function BoxSpec(p: Primitives, ephemeral: bytes, nonce: bytes, recipientPublic: bytes, plaintext: bytes): bytes
    requires |nonce| >= 12 && IsBuffer(plaintext)
  {
    var ephemeralPublic := p.agreementPublic(ephemeral);
    var key := BoxKey(p, p.x25519(ephemeral, recipientPublic), ephemeralPublic, recipientPublic);
    ephemeralPublic + nonce + Sealed(key, nonce, plaintext, [])
  }

  /** `sealedBoxOf`. */
  method SealedBoxOf(p: Primitives, ephemeral: bytes, nonce: bytes, recipientPublic: bytes, plaintext: bytes)
    returns (sealed: bytes)
    requires |nonce| >= 12 && IsBuffer(plaintext)
    ensures sealed == BoxSpec(p, ephemeral, nonce, recipientPublic, plaintext)
  {
    var ephemeralPublic := p.agreementPublic(ephemeral);
    var key := BoxKey(p, p.x25519(ephemeral, recipientPublic), ephemeralPublic, recipientPublic);
    var body := Seal(key, nonce, plaintext, []);
    sealed := ephemeralPublic + nonce + body;
  }
}
