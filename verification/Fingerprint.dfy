/** The six words people compare to check a signing key. */
module Fingerprint {
  import opened Common
  import opened Bits
  import opened Numerals

  const BASE: nat := 2048

  const LOW_62: nat := 0x4000_0000_0000_0000

  type wordList = w: seq<string> | |w| == 2048 witness seq(2048, _ => "")

  /** `bits`: the first sixteen digest bytes, through their hexadecimal text. */
  function DigestBits(digest: bytes): nat { Read(Hex(if |digest| < 16 then digest else digest[..16]), 16) }

  /** `Number((bits >> BigInt(128 - 11 * (position + 1))) & 0x7ffn)`. */
  function WordIndex(bits: nat, position: nat): (index: nat)
    requires position < 6
    ensures index < BASE
  {
    AndBound(bits / Pow(2, 128 - 11 * (position + 1)), 0x7ff);
    And(bits / Pow(2, 128 - 11 * (position + 1)), 0x7ff)
  }

  /** `fingerprint`, of a signing key whose SHA-256 digest is given. */
  function FingerprintOf(words: wordList, digest: bytes): (shown: seq<string>)
    ensures |shown| == 6
  {
    seq(6, position requires 0 <= position < 6 => words[WordIndex(DigestBits(digest), position)])
  }

  function Indices(bits: nat): (indices: seq<nat>)
    ensures |indices| == 6
  {
    seq(6, position requires 0 <= position < 6 => WordIndex(bits, position))
  }

  /** The number whose digits in base 2048, most significant first, these are. */
  function Recombine(digits: seq<nat>): nat {
    if digits == [] then 0 else Recombine(digits[..|digits| - 1]) * BASE + digits[|digits| - 1]
  }

  /** The n lowest digits of a number, most significant first. */
  function Digits(x: nat, n: nat): (digits: seq<nat>)
    ensures |digits| == n
  {
    if n == 0 then [] else Digits(x / BASE, n - 1) + [x % BASE]
  }

  lemma {:induction false} RecombineDigits(x: nat, n: nat)
    requires x < Pow(BASE, n)
    ensures Recombine(Digits(x, n)) == x
    decreases n
  {
    if n > 0 {
      QuotientBelow(x, BASE, Pow(BASE, n - 1));
      RecombineDigits(x / BASE, n - 1);
      assert Digits(x, n)[..n - 1] == Digits(x / BASE, n - 1);
    }
  }

  lemma {:induction false} DigitAt(x: nat, n: nat, i: nat)
    requires i < n
    ensures Digits(x, n)[i] == x / Pow(BASE, n - 1 - i) % BASE
    decreases n
  {
    if i == n - 1 {
      assert x / Pow(BASE, 0) == x;
    } else {
      DigitAt(x / BASE, n - 1, i);
      DivideTwice(x, BASE, Pow(BASE, n - 2 - i));
    }
  }

  lemma TwoTo62()
    ensures Pow(2, 62) == LOW_62 && Pow(2, 11) == BASE
  {
    assert Pow(2, 11) == BASE;
    TwoTo64();
    PowAdd(2, 62, 2);
    assert Pow(2, 2) == 4;
  }

  lemma {:induction false} PowOfPow(b: nat, m: nat, n: nat)
    ensures Pow(Pow(b, m), n) == Pow(b, m * n)
    decreases n
  {
    if n > 0 {
      PowOfPow(b, m, n - 1);
      PowAdd(b, m, m * (n - 1));
      assert m + m * (n - 1) == m * n;
    }
  }

  /** Each index is a base-2048 digit of the bits above the lowest 62. */
  lemma IndexIsDigit(bits: nat, position: nat)
    requires position < 6
    ensures WordIndex(bits, position) == Digits(bits / LOW_62, 6)[position]
  {
    var above := 5 - position;
    TwoTo62();
    AndMask(bits / Pow(2, 128 - 11 * (position + 1)), 11);
    DigitAt(bits / LOW_62, 6, position);
    PowOfPow(2, 11, above);
    PowAdd(2, 62, 11 * above);
    DivideTwice(bits, LOW_62, Pow(BASE, above));
    assert 62 + 11 * above == 128 - 11 * (position + 1);
  }

  /** The six indices recombine to the top 66 of the 128 bits. */
  lemma IndicesRecombine(digest: bytes)
    requires |digest| >= 16
    ensures Recombine(Indices(DigestBits(digest))) == DigestBits(digest) / LOW_62
    ensures DigestBits(digest) / LOW_62 < Pow(2, 66)
  {
    var bits := DigestBits(digest);
    ReadHex(digest[..16]);
    BigEndianBytesOfSum(digest[..16]);
    TwoTo62();
    PowOfPow(2, 8, 16);
    PowAdd(2, 62, 66);
    assert Pow(2, 8) == 256;
    QuotientBelow(bits, LOW_62, Pow(2, 66));
    PowOfPow(2, 11, 6);
    forall position | 0 <= position < 6
      ensures Indices(bits)[position] == Digits(bits / LOW_62, 6)[position]
    {
      IndexIsDigit(bits, position);
    }
    assert Indices(bits) == Digits(bits / LOW_62, 6);
    RecombineDigits(bits / LOW_62, 6);
  }

  lemma IndexIsMasked(bits: nat, position: nat, below: nat)
    requires position < 6 && below == 117 - 11 * position
    ensures WordIndex(bits, position) == bits / Pow(2, below) % BASE
  {
    var above := 5 - position;
    IndexIsDigit(bits, position);
    DigitAt(bits / LOW_62, 6, position);
    TwoTo62();
    PowOfPow(2, 11, above);
    PowAdd(2, 62, 11 * above);
    DivideTwice(bits, LOW_62, Pow(BASE, above));
    assert 62 + 11 * above == below;
  }

  /** Word i is numbered by the eleven bits from bit 11 i on of the digest's first sixteen bytes. */
  lemma ShowsElevenBitsEach(words: wordList, digest: bytes, i: nat)
    requires |digest| >= 16 && i < 6
    ensures var index := BigEndianSum(digest[..16]) / Pow(2, 117 - 11 * i) % 2048;
            0 <= index < 2048 && FingerprintOf(words, digest)[i] == words[index]
  {
    ReadHex(digest[..16]);
    IndexIsMasked(DigestBits(digest), i, 117 - 11 * i);
  }

  /** Two digests show the same six words exactly when their top 66 bits agree. */
  lemma SharedFingerprint(words: wordList, digest: bytes, digest': bytes)
    requires |digest| >= 16 && |digest'| >= 16 && Distinct(words)
    ensures FingerprintOf(words, digest) == FingerprintOf(words, digest')
       <==> DigestBits(digest) / LOW_62 == DigestBits(digest') / LOW_62
  {
    var bits, bits' := DigestBits(digest), DigestBits(digest');
    IndicesRecombine(digest);
    IndicesRecombine(digest');
    if FingerprintOf(words, digest) == FingerprintOf(words, digest') {
      forall position | 0 <= position < 6
        ensures Indices(bits)[position] == Indices(bits')[position]
      {
        assert FingerprintOf(words, digest)[position] == FingerprintOf(words, digest')[position];
      }
      assert Indices(bits) == Indices(bits');
    }
    if bits / LOW_62 == bits' / LOW_62 {
      forall position | 0 <= position < 6
        ensures FingerprintOf(words, digest)[position] == FingerprintOf(words, digest')[position]
      {
        IndexIsDigit(bits, position);
        IndexIsDigit(bits', position);
      }
      assert FingerprintOf(words, digest) == FingerprintOf(words, digest');
    }
  }
}
