/** Poly1305 (section 2.5 of RFC 8439) as the vector generator computes it. */
module Poly {
  import opened Common
  import opened Bits
  import opened Numerals

  /** 2^130 - 5. */
  const PRIME: nat := 0x3_ffff_ffff_ffff_ffff_ffff_ffff_ffff_fffb

  const CLAMP: nat := 0x0fff_fffc_0fff_fffc_0fff_fffc_0fff_ffff

  const TWO_124: nat := 0x1000_0000_0000_0000_0000_0000_0000_0000

  const TWO_128: nat := 0x1_0000_0000_0000_0000_0000_0000_0000_0000

  /** `littleEndian`: the hexadecimal text of the reversed buffer, read in base 16. */
  function LittleEndian(b: bytes): nat {
    var text := Hex(Reverse(b));
    Read(if text == "" then "0" else text, 16)
  }

  lemma LittleEndianIsSum(b: bytes)
    ensures LittleEndian(b) == LittleEndianSum(b)
  {
    ReadHex(Reverse(b));
    BigEndianOfReverse(b);
    if b == [] {
      assert Read("0", 16) == Read("0"[..0], 16) * 16 + DigitValue('0') == 0;
    }
  }

  /** `bytes.subarray(from, to)`, whose bounds are clamped to the buffer. */
  function Subarray(b: bytes, from: nat, to: nat): bytes
    requires from <= to
  {
    b[if from < |b| then from else |b|..if to < |b| then to else |b|]
  }

  /** The number of a chunk: its little-endian reading with a one appended above it. */
  function ChunkNumber(chunk: bytes): nat { LittleEndianSum(chunk) + Pow(2, 8 * |chunk|) }

  /** The message in chunks of sixteen bytes, as numbers. */
  function Chunks(message: bytes): (numbers: seq<nat>)
    decreases |message|
  {
    if message == [] then []
    else [ChunkNumber(Subarray(message, 0, 16))] + Chunks(message[|Subarray(message, 0, 16)|..])
  }

  /** Sum of cs[i] * r^(n - i), the polynomial of section 2.5, over all n chunks. */
  function Polynomial(cs: seq<nat>, r: nat): nat {
    if cs == [] then 0 else cs[0] * Pow(r, |cs|) + Polynomial(cs[1..], r)
  }

  /** One pass of the loop: add the chunk, multiply by r, reduce. */
  function Step(r: nat, p: nat): (nat, nat) -> nat
    requires p > 0
  {
    (accumulator: nat, chunk: nat) => (accumulator + chunk) * r % p
  }

  /** The accumulator after the chunks, from the value it has before them. */
  function Accumulate(step: (nat, nat) -> nat, accumulator: nat, cs: seq<nat>): nat
    decreases |cs|
  {
    if cs == [] then accumulator else Accumulate(step, step(accumulator, cs[0]), cs[1..])
  }

  lemma MultiplyThenReduce(a: nat, b: nat, k: nat, p: nat)
    requires p > 0
    ensures (a % p * k + b) % p == (a * k + b) % p
  {
    var q, r := a / p, a % p;
    assert a * k + b == r * k + b + q * k * p by {
      MulDistributes(q * p, r, k);
      assert q * p * k == q * k * p;
    }
    ModOfSumWithMultiple(r * k + b, q * k, p);
  }

  /** Reducing at every step is reducing the polynomial once. */
  lemma {:induction false} AccumulateIsPolynomial(a: nat, cs: seq<nat>, r: nat, p: nat)
    requires p > 0 && a < p
    ensures Accumulate(Step(r, p), a, cs) == (a * Pow(r, |cs|) + Polynomial(cs, r)) % p
    decreases |cs|
  {
    if cs != [] {
      var c, rest := cs[0], cs[1..];
      var k, b := Pow(r, |rest|), Polynomial(rest, r);
      AccumulateIsPolynomial((a + c) * r % p, rest, r, p);
      MultiplyThenReduce((a + c) * r, b, k, p);
      MulAssociates(a + c, r, k);
      MulDistributes(a, c, r * k);
    }
  }

  lemma AccumulateFromZero(cs: seq<nat>, r: nat, p: nat)
    requires p > 0
    ensures Accumulate(Step(r, p), 0, cs) == Polynomial(cs, r) % p
  {
    AccumulateIsPolynomial(0, cs, r, p);
  }

  function R(oneTimeKey: bytes): nat { And(LittleEndianSum(Subarray(oneTimeKey, 0, 16)), CLAMP) }

  function S(oneTimeKey: bytes): nat { LittleEndianSum(Subarray(oneTimeKey, 16, 32)) }

  lemma ClampedBelow(oneTimeKey: bytes)
    ensures R(oneTimeKey) < TWO_124
  {
    AndBound(LittleEndianSum(Subarray(oneTimeKey, 0, 16)), CLAMP);
  }

  /** Section 2.5 in closed form: the polynomial modulo the prime, plus s, modulo 2^128. */
  function TagNumber(oneTimeKey: bytes, message: bytes): (n: nat)
    ensures n < TWO_128
  {
    (Polynomial(Chunks(message), R(oneTimeKey)) % PRIME + S(oneTimeKey)) % TWO_128
  }

  /** `Buffer.from(tag.toString(16).padStart(32, "0"), "hex").reverse()`. */
  function TagBytes(n: nat): bytes { Reverse(FromHex(PadStart(Show(n, 16), 32))) }

  lemma TagText(n: nat)
    requires n < TWO_128
    ensures var text := PadStart(Show(n, 16), 32);
            |text| == 32 && IsNumeral(text, 16) && Read(text, 16) == n
  {
    var digits := Show(n, 16);
    SixteenTo32();
    ShowLength(n, 16, 32);
    ReadShow(n, 16);
    ReadPadded(32 - |digits|, digits, 16);
    assert DigitValue('0') == 0;
  }

  /** The tag is sixteen bytes whose little-endian reading is the number. */
  lemma TagBytesHoldTheNumber(n: nat)
    requires n < TWO_128
    ensures |TagBytes(n)| == 16
    ensures LittleEndian(TagBytes(n)) == n
  {
    var text := PadStart(Show(n, 16), 32);
    TagText(n);
    FromHexSum(text);
    LittleEndianIsSum(TagBytes(n));
    BigEndianOfReverse(TagBytes(n));
    assert Reverse(TagBytes(n)) == FromHex(text);
  }

  lemma SixteenTo32()
    ensures Pow(16, 32) == TWO_128
  {
    assert Pow(16, 4) == 0x1_0000;
    PowAdd(16, 4, 4);
    PowAdd(16, 8, 8);
    PowAdd(16, 16, 16);
  }

  /** What is left of the message at an offset, also past its end. */
  function Rest(message: bytes, offset: nat): bytes {
    if offset < |message| then message[offset..] else []
  }

  lemma ChunksAdvance(message: bytes, offset: nat)
    requires offset < |message|
    ensures Chunks(Rest(message, offset))
         == [ChunkNumber(Subarray(message, offset, offset + 16))] + Chunks(Rest(message, offset + 16))
  {
    var rest, chunk := message[offset..], Subarray(message, offset, offset + 16);
    assert Subarray(rest, 0, 16) == chunk;
    assert rest[|chunk|..] == Rest(message, offset + 16);
  }

  /** The loop of `poly1305`. */
  method Accumulator(message: bytes, r: nat) returns (accumulator: nat)
    ensures accumulator == Accumulate(Step(r, PRIME), 0, Chunks(message))
  {
    accumulator := 0;
    ghost var step := Step(r, PRIME);
    var offset := 0;
    while offset < |message|
      invariant Accumulate(step, accumulator, Chunks(Rest(message, offset))) == Accumulate(step, 0, Chunks(message))
    {
      ChunksAdvance(message, offset);
      var chunk := Subarray(message, offset, offset + 16);
      accumulator := Absorb(accumulator, chunk, r);
      offset := offset + 16;
    }
  }

  /** The body of the loop of `poly1305`. */
  method Absorb(accumulator: nat, chunk: bytes, r: nat) returns (next: nat)
    ensures next == Step(r, PRIME)(accumulator, ChunkNumber(chunk))
    ensures next < PRIME
  {
    LittleEndianIsSum(chunk);
    var block := LittleEndian(chunk) + Pow(2, 8 * |chunk|);
    next := (accumulator + block) * r % PRIME;
  }

  /** `poly1305`, for a one-time key and a message of any length. */
  method Poly1305(oneTimeKey: bytes, message: bytes) returns (tag: bytes)
    ensures |tag| == 16
    ensures LittleEndian(tag) == TagNumber(oneTimeKey, message)
    ensures tag == TagBytes(TagNumber(oneTimeKey, message))
  {
    var r, s := KeyHalves(oneTimeKey);
    var accumulator := Accumulator(message, r);
    ghost var n := TagNumber(oneTimeKey, message);
    assert n == (accumulator + s) % TWO_128 by {
      AccumulateFromZero(Chunks(message), r, PRIME);
    }
    TagBytesHoldTheNumber(n);
    tag := Finish(accumulator, s, n);
  }

  /** The last two statements of `poly1305`. */
  method Finish(accumulator: nat, s: nat, ghost n: nat) returns (tag: bytes)
    requires n == (accumulator + s) % TWO_128
    ensures tag == TagBytes(n)
  {
    Masked128(accumulator + s);
    tag := TagBytes(And(accumulator + s, TWO_128 - 1));
  }

  method KeyHalves(oneTimeKey: bytes) returns (r: nat, s: nat)
    ensures r == R(oneTimeKey) && s == S(oneTimeKey)
  {
    LittleEndianIsSum(Subarray(oneTimeKey, 0, 16));
    LittleEndianIsSum(Subarray(oneTimeKey, 16, 32));
    r := And(LittleEndian(Subarray(oneTimeKey, 0, 16)), CLAMP);
    s := LittleEndian(Subarray(oneTimeKey, 16, 32));
  }

  lemma Masked128(x: nat)
    ensures And(x, TWO_128 - 1) == x % TWO_128
  {
    TwoTo128();
    AndMask(x, 128);
  }

  // -------------------------------------------------------------------- injectivity

  lemma {:induction false} BytesAndBits(n: nat)
    ensures Pow(2, 8 * n) == Pow(256, n)
  {
    if n > 0 {
      BytesAndBits(n - 1);
      PowAdd(2, 8, 8 * (n - 1));
      assert Pow(2, 8) == 256;
    }
  }

  /** Chunk numbers are nonzero, below the prime, and tell every chunk apart. */
  lemma ChunkNumberInjective(a: bytes, b: bytes)
    requires |a| <= 16 && |b| <= 16
    ensures 0 < ChunkNumber(a) < PRIME
    ensures ChunkNumber(a) == ChunkNumber(b) ==> a == b
  {
    BytesAndBits(|a|);
    BytesAndBits(|b|);
    LittleEndianBound(a);
    LittleEndianBound(b);
    PowMonotone(256, |a|, 16);
    TwoTo128();
    BytesAndBits(16);
    if |a| < |b| {
      PowMonotone(256, |a| + 1, |b|);
    } else if |b| < |a| {
      PowMonotone(256, |b| + 1, |a|);
    } else if ChunkNumber(a) == ChunkNumber(b) {
      LittleEndianInjective(a, b);
    }
  }

  lemma {:induction false} ChunksAreSmall(message: bytes)
    ensures forall i :: 0 <= i < |Chunks(message)| ==> 0 < Chunks(message)[i] < PRIME
    decreases |message|
  {
    if message != [] {
      var chunk := Subarray(message, 0, 16);
      ChunkNumberInjective(chunk, chunk);
      ChunksAreSmall(message[|chunk|..]);
    }
  }

  /** Two messages with the same chunk numbers are the same message. */
  lemma {:induction false} ChunksInjective(m: bytes, n: bytes)
    requires Chunks(m) == Chunks(n)
    ensures m == n
    decreases |m|
  {
    if m != [] && n != [] {
      var a, b := Subarray(m, 0, 16), Subarray(n, 0, 16);
      ChunkNumberInjective(a, b);
      assert Chunks(m)[0] == Chunks(n)[0];
      assert Chunks(m)[1..] == Chunks(m[|a|..]) && Chunks(n)[1..] == Chunks(n[|b|..]);
      ChunksInjective(m[|a|..], n[|b|..]);
      assert m == a + m[|a|..] && n == b + n[|b|..];
    }
  }
}
