/** The authenticated encryption of section 2.8 of RFC 8439, as the vector generator builds it. */
module Aead {
  import opened Common
  import opened Bits
  import opened Numerals
  import opened ChaCha
  import opened Poly


  /** A buffer whose length the 64-bit length fields can hold. */
  predicate IsBuffer(b: bytes) { |b| < TWO_64 }

  function Zeros(n: nat): (z: bytes)
    ensures |z| == n
  {
    seq(n, _ => 0)
  }

  function PaddedTo16(b: bytes): bytes { b + Zeros((16 - |b| % 16) % 16) }

  /** What the tag of a ciphertext and its associated data is computed over. */
  function Authenticated(aad: bytes, ciphertext: bytes): bytes
    requires IsBuffer(aad) && IsBuffer(ciphertext)
  {
    PaddedTo16(aad) + PaddedTo16(ciphertext) + LittleEndianBytes(|aad|, 8) + LittleEndianBytes(|ciphertext|, 8)
  }

  /** n rounded up to a multiple of sixteen. */
  function Rounded(n: nat): (r: nat)
    ensures n <= r < n + 16 && r % 16 == 0
  {
    (n + 15) / 16 * 16
  }

  lemma PaddedLength(b: bytes)
    ensures |PaddedTo16(b)| == Rounded(|b|)
    ensures PaddedTo16(b)[..|b|] == b
  {
  }

  lemma EightBytes()
    ensures Pow(256, 8) == TWO_64
  {
    assert Pow(256, 2) == 0x1_0000;
    PowAdd(256, 2, 2);
    PowAdd(256, 4, 4);
  }

  lemma AuthenticatedLength(aad: bytes, ciphertext: bytes)
    requires IsBuffer(aad) && IsBuffer(ciphertext)
    ensures |Authenticated(aad, ciphertext)| % 16 == 0
    ensures |Authenticated(aad, ciphertext)| == Rounded(|aad|) + Rounded(|ciphertext|) + 16
  {
    PaddedLength(aad);
    PaddedLength(ciphertext);
    MultiplesOf16(Rounded(|aad|), Rounded(|ciphertext|));
  }

  lemma MultiplesOf16(m: nat, n: nat)
    requires m % 16 == 0 && n % 16 == 0
    ensures (m + n + 16) % 16 == 0
  {
  }

  function LastField(a: bytes): nat
    requires |a| >= 8
  {
    LittleEndianSum(a[|a| - 8..])
  }

  lemma ReadsLastField(front: bytes, n: nat)
    requires n < TWO_64
    ensures LastField(front + LittleEndianBytes(n, 8)) == n
  {
    var a := front + LittleEndianBytes(n, 8);
    assert a[|a| - 8..] == LittleEndianBytes(n, 8);
    EightBytes();
    LittleEndianRoundTrip(n, 8);
  }

  lemma Slices(p: bytes, q: bytes, u: bytes, v: bytes, m: nat, n: nat)
    requires m <= |p| && n <= |q| && |v| == 8
    ensures var a := p + q + u + v;
            && a[..m] == p[..m] && a[|p|..|p| + n] == q[..n]
            && a[..|a| - 8] == p + q + u
  {
  }

  lemma ReadsParts(aad: bytes, ciphertext: bytes)
    requires IsBuffer(aad) && IsBuffer(ciphertext)
    ensures var a := Authenticated(aad, ciphertext);
            var start := Rounded(|aad|);
            && |a| >= 16 && LastField(a) == |ciphertext| && LastField(a[..|a| - 8]) == |aad|
            && |aad| <= start && start + |ciphertext| <= |a|
            && a[..|aad|] == aad && a[start..start + |ciphertext|] == ciphertext
  {
    PaddedLength(aad);
    PaddedLength(ciphertext);
    var p, q := PaddedTo16(aad), PaddedTo16(ciphertext);
    var u, v := LittleEndianBytes(|aad|, 8), LittleEndianBytes(|ciphertext|, 8);
    Slices(p, q, u, v, |aad|, |ciphertext|);
    ReadsLastField(p + q, |aad|);
    ReadsLastField(p + q + u, |ciphertext|);
  }

  /** Chunk numbers of the authenticated input determine both of its parts. */
  lemma AuthenticatedInjective(aad: bytes, ciphertext: bytes, aad': bytes, ciphertext': bytes)
    requires IsBuffer(aad) && IsBuffer(ciphertext) && IsBuffer(aad') && IsBuffer(ciphertext')
    requires Chunks(Authenticated(aad, ciphertext)) == Chunks(Authenticated(aad', ciphertext'))
    ensures aad == aad' && ciphertext == ciphertext'
  {
    ChunksInjective(Authenticated(aad, ciphertext), Authenticated(aad', ciphertext'));
    ReadsParts(aad, ciphertext);
    ReadsParts(aad', ciphertext');
  }

  // ------------------------------------------------------------------ seal and open

  function OneTimeKey(key: bytes, nonce: bytes): bytes
    requires |key| >= 32 && |nonce| >= 12
  {
    Block(key, 0, nonce)[..32]
  }

  function Tag(key: bytes, nonce: bytes, aad: bytes, ciphertext: bytes): (tag: bytes)
    requires |key| >= 32 && |nonce| >= 12 && IsBuffer(aad) && IsBuffer(ciphertext)
    ensures |tag| == 16
  {
    var n := TagNumber(OneTimeKey(key, nonce), Authenticated(aad, ciphertext));
    TagBytesHoldTheNumber(n);
    TagBytes(n)
  }

  /** Ciphertext, then tag. */
  function Sealed(key: bytes, nonce: bytes, plaintext: bytes, aad: bytes): (body: bytes)
    requires |key| >= 32 && |nonce| >= 12 && IsBuffer(aad) && IsBuffer(plaintext)
    ensures |body| == |plaintext| + 16
  {
    var ciphertext := Stream(key, 1, nonce, plaintext);
    ciphertext + Tag(key, nonce, aad, ciphertext)
  }

  /** `aead`. */
  method Seal(key: bytes, nonce: bytes, plaintext: bytes, aad: bytes) returns (body: bytes)
    requires |key| >= 32 && |nonce| >= 12 && IsBuffer(aad) && IsBuffer(plaintext)
    ensures body == Sealed(key, nonce, plaintext, aad)
  {
    var block := ChaChaBlock(key, 0, nonce);
    var oneTimeKey := block[..32];
    var ciphertext := ChaCha20(key, 1, nonce, plaintext);
    var tag := Poly1305(oneTimeKey, Authenticated(aad, ciphertext));
    body := ciphertext + tag;
  }

  /** The decryption of section 2.8: check the tag, then undo the stream. */
  function Open(key: bytes, nonce: bytes, body: bytes, aad: bytes): Option<bytes>
    requires |key| >= 32 && |nonce| >= 12 && IsBuffer(aad) && IsBuffer(body)
  {
    if |body| < 16 then None
    else
      var ciphertext, tag := body[..|body| - 16], body[|body| - 16..];
      if tag == Tag(key, nonce, aad, ciphertext) then Some(Stream(key, 1, nonce, ciphertext)) else None
  }

  lemma OpensTheSealed(key: bytes, nonce: bytes, plaintext: bytes, aad: bytes)
    requires |key| >= 32 && |nonce| >= 12 && IsBuffer(aad) && IsBuffer(plaintext)
    requires |plaintext| + 16 < TWO_64
    ensures Open(key, nonce, Sealed(key, nonce, plaintext, aad), aad) == Some(plaintext)
  {
    var ciphertext := Stream(key, 1, nonce, plaintext);
    var body := ciphertext + Tag(key, nonce, aad, ciphertext);
    assert body[..|body| - 16] == ciphertext && body[|body| - 16..] == Tag(key, nonce, aad, ciphertext);
    StreamTwice(key, 1, nonce, plaintext);
  }

  lemma OpensOnlyTheSealed(key: bytes, nonce: bytes, plaintext: bytes, body: bytes, aad: bytes)
    requires |key| >= 32 && |nonce| >= 12 && IsBuffer(aad) && IsBuffer(plaintext) && IsBuffer(body)
    requires Open(key, nonce, body, aad) == Some(plaintext)
    ensures body == Sealed(key, nonce, plaintext, aad)
  {
    StreamTwice(key, 1, nonce, body[..|body| - 16]);
    assert body == body[..|body| - 16] + body[|body| - 16..];
  }

  /**
   A body opens to a plaintext exactly when it is what sealing that plaintext
   gives: nothing is lost, for every length, and nothing else opens to it.
   */
  lemma OpensExactlyTheSealed(key: bytes, nonce: bytes, plaintext: bytes, body: bytes, aad: bytes)
    requires |key| >= 32 && |nonce| >= 12 && IsBuffer(aad) && IsBuffer(plaintext) && IsBuffer(body)
    ensures Open(key, nonce, body, aad) == Some(plaintext) <==> body == Sealed(key, nonce, plaintext, aad)
  {
    if Open(key, nonce, body, aad) == Some(plaintext) {
      OpensOnlyTheSealed(key, nonce, plaintext, body, aad);
    } else if body == Sealed(key, nonce, plaintext, aad) {
      OpensTheSealed(key, nonce, plaintext, aad);
    }
  }

  // -------------------------------------------------------------------- block counters

  lemma {:induction false} WordsDetermineBytes(a: bytes, b: bytes, n: nat)
    requires |a| == |b| == 4 * n
    requires forall i {:trigger WordAt(a, 4 * i)} :: 0 <= i < n ==> WordAt(a, 4 * i) == WordAt(b, 4 * i)
    ensures a == b
  {
    if n > 0 {
      var m := 4 * (n - 1);
      assert WordAt(a, 4 * (n - 1)) == WordAt(b, 4 * (n - 1));
      LittleEndianInjective(a[m..m + 4], b[m..m + 4]);
      forall i {:trigger WordAt(a[..m], 4 * i)} | 0 <= i < n - 1
        ensures WordAt(a[..m], 4 * i) == WordAt(b[..m], 4 * i)
      {
        assert a[..m][4 * i..4 * i + 4] == a[4 * i..4 * i + 4];
        assert b[..m][4 * i..4 * i + 4] == b[4 * i..4 * i + 4];
        assert WordAt(a, 4 * i) == WordAt(b, 4 * i);
      }
      WordsDetermineBytes(a[..m], b[..m], n - 1);
      assert a == a[..m] + a[m..m + 4] && b == b[..m] + b[m..m + 4];
    }
  }

  /** The permuted state tells apart key, nonce, and counter modulo 2^32. */
  lemma StatesTellApart(key: bytes, c: nat, nonce: bytes, key': bytes, c': nat, nonce': bytes)
    requires |key| == |key'| == 32 && |nonce| == |nonce'| == 12
    ensures Permute(Initial(key, c, nonce)) == Permute(Initial(key', c', nonce'))
       <==> key == key' && c % TWO_32 == c' % TWO_32 && nonce == nonce'
  {
    var s, s' := Initial(key, c, nonce), Initial(key', c', nonce');
    if Permute(s) == Permute(s') {
      PermuteIsBijective(s);
      PermuteIsBijective(s');
      forall i {:trigger WordAt(key, 4 * i)} | 0 <= i < 8
        ensures WordAt(key, 4 * i) == WordAt(key', 4 * i)
      {
        assert s[4 + i] == WordAt(key, 4 * i) && s'[4 + i] == WordAt(key', 4 * i);
      }
      forall i {:trigger WordAt(nonce, 4 * i)} | 0 <= i < 3
        ensures WordAt(nonce, 4 * i) == WordAt(nonce', 4 * i)
      {
        assert s[13 + i] == WordAt(nonce, 4 * i) && s'[13 + i] == WordAt(nonce', 4 * i);
      }
      assert s[12] == ToUint32(c) && s'[12] == ToUint32(c');
      WordsDetermineBytes(key, key', 8);
      WordsDetermineBytes(nonce, nonce', 3);
    }
  }

  /** Body block i, counted from 0, is used by a plaintext of the length and has counter 1 + i. */
  predicate UsesBlock(length: nat, i: nat) { 64 * i < length }

  const LONGEST: nat := 0x40_0000_0000 - 64

  lemma FreshUpToLongest(key: bytes, nonce: bytes, length: nat, i: nat, j: nat)
    requires |key| == 32 && |nonce| == 12 && length <= LONGEST
    requires i < j && UsesBlock(length, j - 1)
    ensures Permute(Initial(key, i, nonce)) != Permute(Initial(key, j, nonce))
  {
    assert j < TWO_32;
    StatesTellApart(key, i, nonce, key, j, nonce);
  }

  lemma CounterWraps(key: bytes, nonce: bytes)
    requires |key| == 32 && |nonce| == 12
    ensures Initial(key, TWO_32, nonce) == Initial(key, 0, nonce)
  {
    assert ToUint32(TWO_32) == 0;
  }

  /** The permuted states of the one-time key, counter 0, and of the body blocks are pairwise different. */
  ghost predicate HasFreshBlocks(key: bytes, nonce: bytes, length: nat)
    requires |key| == 32 && |nonce| == 12
  {
    forall i: nat, j: nat :: i < j && UsesBlock(length, j - 1) ==>
      Permute(Initial(key, i, nonce)) != Permute(Initial(key, j, nonce))
  }

  /** That holds exactly up to 2^38 - 64 bytes of plaintext. */
  lemma BlocksAreFresh(key: bytes, nonce: bytes, length: nat)
    requires |key| == 32 && |nonce| == 12
    ensures HasFreshBlocks(key, nonce, length) <==> length <= LONGEST
  {
    if length <= LONGEST {
      forall i: nat, j: nat | i < j && UsesBlock(length, j - 1)
        ensures Permute(Initial(key, i, nonce)) != Permute(Initial(key, j, nonce))
      {
        FreshUpToLongest(key, nonce, length, i, j);
      }
    } else {
      CounterWraps(key, nonce);
      assert UsesBlock(length, TWO_32 - 1);
    }
  }

  /** One byte more is joined with the block the one-time key was cut from. */
  lemma LongerReusesTheKeyBlock(key: bytes, nonce: bytes, plaintext: bytes)
    requires |key| == 32 && |nonce| == 12 && |plaintext| > LONGEST
    ensures Stream(key, 1, nonce, plaintext)[LONGEST] == XorBytes(plaintext[LONGEST], OneTimeKey(key, nonce)[0])
  {
    var blocks := Blocks(key, nonce);
    CounterWraps(key, nonce);
    assert blocks(TWO_32) == blocks(0);
    KeyStreamWithinBlock(blocks, 1, |plaintext|, LONGEST);
    assert 1 + LONGEST / 64 == TWO_32;
  }
}
