/**
 Positional notation as the source uses it: digit strings of a BigInt or of a
 rank, hexadecimal text of a buffer, and big- and little-endian byte orders.
 */
module Numerals {
  import opened Common

  predicate IsBase(base: nat) { base == 10 || base == 16 }

  /** Value of a digit character; 16 for a character that is no digit. */
  function DigitValue(c: char): (v: nat)
    ensures v <= 16
  {
    if '0' <= c <= '9' then c as int - '0' as int
    else if 'a' <= c <= 'f' then c as int - 'a' as int + 10
    else 16
  }

  function Digit(d: nat): (c: char)
    requires d < 16
    ensures DigitValue(c) == d
  {
    if d < 10 then ('0' as int + d) as char else ('a' as int + d - 10) as char
  }

  lemma DigitsAre(d: nat)
    requires d < 16
    ensures Digit(d) == "0123456789abcdef"[d]
  {
  }

  /** `n.toString(base)`. */
  function Show(n: nat, base: nat): (s: string)
    requires IsBase(base)
    ensures |s| > 0
    decreases n
  {
    if n < base then [Digit(n)] else Show(n / base, base) + [Digit(n % base)]
  }

  predicate IsNumeral(s: string, base: nat) {
    forall c :: c in s ==> DigitValue(c) < base
  }

  /** The number a digit string denotes, most significant digit first. */
  function Read(s: string, base: nat): nat {
    if s == [] then 0 else Read(s[..|s| - 1], base) * base + DigitValue(s[|s| - 1])
  }

  lemma ReadAppended(s: string, d: nat, base: nat)
    requires IsBase(base) && d < base && IsNumeral(s, base)
    ensures Read(s + [Digit(d)], base) == Read(s, base) * base + d
    ensures IsNumeral(s + [Digit(d)], base)
  {
    var t := s + [Digit(d)];
    assert t[..|t| - 1] == s && t[|t| - 1] == Digit(d);
  }

  lemma {:induction false} ReadShow(n: nat, base: nat)
    requires IsBase(base)
    ensures Read(Show(n, base), base) == n
    ensures IsNumeral(Show(n, base), base)
    decreases n
  {
    if n < base {
      ReadAppended([], n, base);
      assert [] + [Digit(n)] == [Digit(n)];
    } else {
      var q, r := n / base, n % base;
      ReadShow(q, base);
      ReadAppended(Show(q, base), r, base);
      assert q * base + r == n;
    }
  }

  lemma ShowInjective(m: nat, n: nat, base: nat)
    requires IsBase(base) && Show(m, base) == Show(n, base)
    ensures m == n
  {
    ReadShow(m, base);
    ReadShow(n, base);
  }

  lemma {:induction false} ShowLength(n: nat, base: nat, k: nat)
    requires IsBase(base) && k > 0 && n < Pow(base, k)
    ensures |Show(n, base)| <= k
    decreases k
  {
    if n >= base {
      var p := Pow(base, k - 1);
      QuotientBelow(n, base, p);
      assert 1 <= n / base < p && Pow(base, 0) == 1;
      ShowLength(n / base, base, k - 1);
    }
  }

  lemma QuotientBelow(n: nat, base: nat, p: nat)
    requires base > 0 && n < base * p
    ensures n / base < p
  {
    if p <= n / base {
      MulMonotone(p, n / base, base);
      assert false;
    }
  }

  /** `s.padStart(width, "0")`. */
  function PadStart(s: string, width: nat): string {
    if |s| >= width then s else seq(width - |s|, _ => '0') + s
  }

  lemma {:induction false} ReadPadded(zeros: nat, s: string, base: nat)
    ensures Read(seq(zeros, _ => '0') + s, base) == Read(s, base)
    decreases zeros + |s|
  {
    var padded := seq(zeros, _ => '0') + s;
    if s != [] {
      ReadPadded(zeros, s[..|s| - 1], base);
      assert padded[..|padded| - 1] == seq(zeros, _ => '0') + s[..|s| - 1];
    } else if zeros > 0 {
      ReadPadded(zeros - 1, s, base);
      assert padded[..|padded| - 1] == seq(zeros - 1, _ => '0') + s;
    }
  }

  // ------------------------------------------------------------------- byte text

  /** `buffer.toString("hex")`. */
  function Hex(b: bytes): (s: string)
    ensures |s| == 2 * |b|
    ensures IsNumeral(s, 16)
  {
    if b == [] then [] else Hex(b[..|b| - 1]) + HexPair(b[|b| - 1])
  }

  function HexPair(b: byte): (s: string)
    ensures |s| == 2 && IsNumeral(s, 16)
  {
    var hi, lo := b / 16, b % 16;
    [Digit(hi), Digit(lo)]
  }

  /** `Buffer.from(s, "hex")`: reading stops at the first pair that is no hexadecimal. */
  function FromHex(s: string): (b: bytes) {
    if |s| < 2 || DigitValue(s[0]) == 16 || DigitValue(s[1]) == 16 then []
    else [DigitValue(s[0]) * 16 + DigitValue(s[1])] + FromHex(s[2..])
  }

  function Reverse<T>(s: seq<T>): (r: seq<T>)
    ensures |r| == |s|
    ensures forall i :: 0 <= i < |s| ==> r[i] == s[|s| - 1 - i]
  {
    if s == [] then [] else Reverse(s[1..]) + [s[0]]
  }

  /** Number denoted by a buffer, least significant byte first. */
  function LittleEndianSum(b: bytes): nat {
    if b == [] then 0 else b[0] + 256 * LittleEndianSum(b[1..])
  }

  /** Number denoted by a buffer, most significant byte first. */
  function BigEndianSum(b: bytes): nat {
    if b == [] then 0 else BigEndianSum(b[..|b| - 1]) * 256 + b[|b| - 1]
  }

  /** Reading the hexadecimal text of a buffer gives its big-endian number. */
  lemma {:induction false} ReadHex(b: bytes)
    ensures Read(Hex(b), 16) == BigEndianSum(b)
  {
    if b != [] {
      var last, s := b[|b| - 1], Hex(b);
      var front := Hex(b[..|b| - 1]);
      ReadHex(b[..|b| - 1]);
      assert s[|s| - 1] == Digit(last % 16) && s[..|s| - 1] == front + [Digit(last / 16)];
      var t := s[..|s| - 1];
      assert t[|t| - 1] == Digit(last / 16) && t[..|t| - 1] == front;
    }
  }

  lemma ReadPair(front: string, hi: char, lo: char)
    ensures Read(front + [hi, lo], 16) == Read(front, 16) * 256 + (DigitValue(hi) * 16 + DigitValue(lo))
  {
    var s := front + [hi, lo];
    assert s[..|s| - 1] == front + [hi] && (front + [hi])[..|front|] == front;
    assert Read(front + [hi], 16) == Read(front, 16) * 16 + DigitValue(hi);
  }

  lemma BigEndianAppend(front: bytes, last: byte)
    ensures BigEndianSum(front + [last]) == BigEndianSum(front) * 256 + last
  {
    assert (front + [last])[..|front|] == front;
  }

  /** Text of even length over hexadecimal digits decodes without loss. */
  lemma {:induction false} FromHexSum(s: string)
    requires |s| % 2 == 0 && IsNumeral(s, 16)
    ensures |FromHex(s)| == |s| / 2
    ensures BigEndianSum(FromHex(s)) == Read(s, 16)
    decreases |s|
  {
    if s != [] {
      var n := |s|;
      var front, hi, lo := s[..n - 2], s[n - 2], s[n - 1];
      assert s == front + [hi, lo];
      FromHexSum(front);
      FromHexAppend(front, hi, lo);
      ReadPair(front, hi, lo);
      BigEndianAppend(FromHex(front), DigitValue(hi) * 16 + DigitValue(lo));
    }
  }

  lemma {:induction false} FromHexAppend(s: string, hi: char, lo: char)
    requires |s| % 2 == 0 && IsNumeral(s, 16) && IsNumeral([hi, lo], 16)
    ensures |FromHex(s)| == |s| / 2
    ensures FromHex(s + [hi, lo]) == FromHex(s) + [DigitValue(hi) * 16 + DigitValue(lo)]
    decreases |s|
  {
    assert DigitValue(hi) < 16 && DigitValue(lo) < 16;
    if s == [] {
      assert FromHex([hi, lo][2..]) == [];
    } else {
      assert s[0] in s && s[1] in s;
      FromHexAppend(s[2..], hi, lo);
      assert (s + [hi, lo])[2..] == s[2..] + [hi, lo];
    }
  }

  lemma {:induction false} BigEndianOfReverse(b: bytes)
    ensures BigEndianSum(Reverse(b)) == LittleEndianSum(b)
  {
    if b != [] {
      BigEndianOfReverse(b[1..]);
      var r := Reverse(b);
      assert r[..|r| - 1] == Reverse(b[1..]);
    }
  }

  lemma {:induction false} LittleEndianBound(b: bytes)
    ensures LittleEndianSum(b) < Pow(256, |b|)
  {
    if b != [] {
      LittleEndianBound(b[1..]);
    }
  }

  lemma {:induction false} LittleEndianInjective(a: bytes, b: bytes)
    requires |a| == |b| && LittleEndianSum(a) == LittleEndianSum(b)
    ensures a == b
  {
    if a != [] {
      var sum, front, other := LittleEndianSum(a), a[1..], b[1..];
      DivModUnique(sum, 256, LittleEndianSum(front), a[0]);
      DivModUnique(sum, 256, LittleEndianSum(other), b[0]);
      LittleEndianInjective(front, other);
      assert a == [a[0]] + a[1..] && b == [b[0]] + b[1..];
    }
  }

  /** The lowest `width` bytes of n, least significant first. */
  function LittleEndianBytes(n: nat, width: nat): (b: bytes)
    ensures |b| == width
  {
    if width == 0 then [] else [n % 256] + LittleEndianBytes(n / 256, width - 1)
  }

  function BigEndianBytes(n: nat, width: nat): (b: bytes)
    ensures |b| == width
  {
    if width == 0 then [] else BigEndianBytes(n / 256, width - 1) + [n % 256]
  }

  lemma {:induction false} LittleEndianRoundTrip(n: nat, width: nat)
    requires n < Pow(256, width)
    ensures LittleEndianSum(LittleEndianBytes(n, width)) == n
    decreases width
  {
    if width > 0 {
      LittleEndianRoundTrip(n / 256, width - 1);
    }
  }

  lemma {:induction false} BigEndianRoundTrip(n: nat, width: nat)
    requires n < Pow(256, width)
    ensures BigEndianSum(BigEndianBytes(n, width)) == n
    decreases width
  {
    if width > 0 {
      BigEndianRoundTrip(n / 256, width - 1);
      assert BigEndianBytes(n, width)[..width - 1] == BigEndianBytes(n / 256, width - 1);
    }
  }

  // Byte by byte.

  lemma {:induction false} LittleEndianByteAt(n: nat, width: nat, i: nat)
    requires i < width
    ensures LittleEndianBytes(n, width)[i] == n / Pow(256, i) % 256
    decreases width
  {
    if i == 0 {
      assert n / Pow(256, 0) == n;
    } else {
      LittleEndianByteAt(n / 256, width - 1, i - 1);
      DivideTwice(n, 256, Pow(256, i - 1));
    }
  }

  lemma {:induction false} BigEndianByteAt(n: nat, width: nat, i: nat)
    requires i < width
    ensures BigEndianBytes(n, width)[i] == n / Pow(256, width - 1 - i) % 256
    decreases width
  {
    if i == width - 1 {
      assert n / Pow(256, 0) == n;
    } else {
      BigEndianByteAt(n / 256, width - 1, i);
      DivideTwice(n, 256, Pow(256, width - 2 - i));
    }
  }

  /** A buffer is the writing, at its own width, of the number it denotes. */
  lemma {:induction false} BigEndianBytesOfSum(b: bytes)
    ensures BigEndianSum(b) < Pow(256, |b|)
    ensures BigEndianBytes(BigEndianSum(b), |b|) == b
  {
    if b != [] {
      var front, last := b[..|b| - 1], b[|b| - 1];
      BigEndianBytesOfSum(front);
      assert BigEndianSum(b) / 256 == BigEndianSum(front) && BigEndianSum(b) % 256 == last;
      assert b == front + [last];
    }
  }
}
