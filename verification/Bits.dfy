/**
 Bitwise operators on non-negative integers (JavaScript's BigInt operators), and
 JavaScript's 32-bit operators on Numbers, which read their operands as two's
 complement words and answer a signed one.
 */
module Bits {
  import opened Common

  function Xor(x: nat, y: nat): nat
    decreases x + y
  {
    if x == 0 && y == 0 then 0 else 2 * Xor(x / 2, y / 2) + (if x % 2 == y % 2 then 0 else 1)
  }

  function And(x: nat, y: nat): nat {
    if x == 0 then 0
    else 2 * And(x / 2, y / 2) + (if x % 2 == 1 && y % 2 == 1 then 1 else 0)
  }

  function Or(x: nat, y: nat): nat
    decreases x + y
  {
    if x == 0 && y == 0 then 0
    else 2 * Or(x / 2, y / 2) + (if x % 2 == 1 || y % 2 == 1 then 1 else 0)
  }

  // The operators on numbers given by their upper part and their last digit.

  lemma DigitParts(a: nat, u: nat)
    requires u < 2
    ensures (2 * a + u) / 2 == a && (2 * a + u) % 2 == u
  {
  }

  lemma XorDigit(a: nat, u: nat, b: nat, v: nat)
    requires u < 2 && v < 2
    ensures Xor(2 * a + u, 2 * b + v) == 2 * Xor(a, b) + (if u == v then 0 else 1)
  {
    DigitParts(a, u);
    DigitParts(b, v);
    XorParts(2 * a + u, a, u, 2 * b + v, b, v);
  }

  lemma XorParts(x: nat, a: nat, u: nat, y: nat, b: nat, v: nat)
    requires x / 2 == a && x % 2 == u && y / 2 == b && y % 2 == v
    ensures Xor(x, y) == 2 * Xor(a, b) + (if u == v then 0 else 1)
  {
  }

  lemma AndDigit(a: nat, u: nat, b: nat, v: nat)
    requires u < 2 && v < 2
    ensures And(2 * a + u, 2 * b + v) == 2 * And(a, b) + (if u == v == 1 then 1 else 0)
  {
    DigitParts(a, u);
    DigitParts(b, v);
    AndParts(2 * a + u, a, u, 2 * b + v, b, v);
  }

  lemma AndParts(x: nat, a: nat, u: nat, y: nat, b: nat, v: nat)
    requires x / 2 == a && x % 2 == u && y / 2 == b && y % 2 == v
    ensures And(x, y) == 2 * And(a, b) + (if u == v == 1 then 1 else 0)
  {
  }

  lemma OrDigit(a: nat, u: nat, b: nat, v: nat)
    requires u < 2 && v < 2
    ensures Or(2 * a + u, 2 * b + v) == 2 * Or(a, b) + (if u == v == 0 then 0 else 1)
  {
    DigitParts(a, u);
    DigitParts(b, v);
    OrParts(2 * a + u, a, u, 2 * b + v, b, v);
  }

  lemma OrParts(x: nat, a: nat, u: nat, y: nat, b: nat, v: nat)
    requires x / 2 == a && x % 2 == u && y / 2 == b && y % 2 == v
    ensures Or(x, y) == 2 * Or(a, b) + (if u == v == 0 then 0 else 1)
  {
  }

  lemma Halves(x: nat) returns (a: nat, u: nat)
    ensures x == 2 * a + u && u < 2 && a == x / 2 && u == x % 2
    ensures x > 0 ==> a < x
  {
    a, u := x / 2, x % 2;
  }

  /** Binary digit k of x, counted from the least significant one. */
  function Bit(x: nat, k: nat): nat
    decreases k
  {
    if k == 0 then x % 2 else Bit(x / 2, k - 1)
  }

  lemma BitOf(a: nat, u: nat, k: nat)
    requires u < 2
    ensures Bit(2 * a + u, k) == if k == 0 then u else Bit(a, k - 1)
  {
    DigitParts(a, u);
  }

  // The operators act on every binary digit by itself.

  lemma {:induction false} XorBit(x: nat, y: nat, k: nat)
    ensures Bit(Xor(x, y), k) == (if Bit(x, k) == Bit(y, k) then 0 else 1)
    decreases k
  {
    var a, u := Halves(x);
    var b, v := Halves(y);
    var w := if u == v then 0 else 1;
    XorDigit(a, u, b, v);
    BitOf(a, u, k);
    BitOf(b, v, k);
    BitOf(Xor(a, b), w, k);
    if k > 0 {
      XorBit(a, b, k - 1);
    }
  }

  lemma {:induction false} AndBit(x: nat, y: nat, k: nat)
    ensures Bit(And(x, y), k) == (if Bit(x, k) == Bit(y, k) == 1 then 1 else 0)
    decreases k
  {
    var a, u := Halves(x);
    var b, v := Halves(y);
    var w := if u == v == 1 then 1 else 0;
    AndDigit(a, u, b, v);
    BitOf(a, u, k);
    BitOf(b, v, k);
    BitOf(And(a, b), w, k);
    if k > 0 {
      AndBit(a, b, k - 1);
    }
  }

  lemma {:induction false} OrBit(x: nat, y: nat, k: nat)
    ensures Bit(Or(x, y), k) == (if Bit(x, k) == Bit(y, k) == 0 then 0 else 1)
    decreases k
  {
    var a, u := Halves(x);
    var b, v := Halves(y);
    var w := if u == v == 0 then 0 else 1;
    OrDigit(a, u, b, v);
    BitOf(a, u, k);
    BitOf(b, v, k);
    BitOf(Or(a, b), w, k);
    if k > 0 {
      OrBit(a, b, k - 1);
    }
  }

  lemma {:induction false} XorBound(x: nat, y: nat, k: nat)
    requires x < Pow(2, k) && y < Pow(2, k)
    ensures Xor(x, y) < Pow(2, k)
    decreases k
  {
    if k > 0 {
      var a, u := Halves(x);
      var b, v := Halves(y);
      XorDigit(a, u, b, v);
      XorBound(a, b, k - 1);
    }
  }

  lemma {:induction false} XorCancel(x: nat, y: nat)
    ensures Xor(Xor(x, y), y) == x
    decreases x + y
  {
    if x > 0 || y > 0 {
      var a, u := Halves(x);
      var b, v := Halves(y);
      var c, w := Xor(a, b), if u == v then 0 else 1;
      XorCancel(a, b);
      XorDigit(a, u, b, v);
      XorDigit(c, w, b, v);
    }
  }

  lemma {:induction false} AndBound(x: nat, y: nat)
    ensures And(x, y) <= y
    decreases x
  {
    if x > 0 {
      var a, u := Halves(x);
      var b, v := Halves(y);
      AndDigit(a, u, b, v);
      AndBound(a, b);
    }
  }

  lemma {:induction false} AndZero(x: nat)
    ensures And(x, 0) == 0
  {
    if x > 0 {
      var a, u := Halves(x);
      AndDigit(a, u, 0, 0);
      AndZero(a);
    }
  }

  /** Masking with 2^k - 1 is reduction modulo 2^k. */
  lemma {:induction false} AndMask(x: nat, k: nat)
    ensures And(x, Pow(2, k) - 1) == x % Pow(2, k)
    decreases k
  {
    if k == 0 {
      AndZero(x);
    } else {
      var h := Pow(2, k - 1);
      var a, u := Halves(x);
      AndMask(a, k - 1);
      AndDigit(a, u, h - 1, 1);
      LastDigitMod(a, u, h);
    }
  }

  lemma LastDigitMod(a: nat, u: nat, h: nat)
    requires u < 2 && h > 0
    ensures (2 * a + u) % (2 * h) == 2 * (a % h) + u
  {
    var q, r := a / h, a % h;
    assert q * (2 * h) == 2 * (q * h);
    DivModUnique(2 * a + u, 2 * h, q, 2 * r + u);
  }

  lemma {:induction false} OrZero(x: nat)
    ensures Or(x, 0) == x
  {
    if x > 0 {
      var a, u := Halves(x);
      OrDigit(a, u, 0, 0);
      OrZero(a);
    }
  }

  function Shifted(x: nat, k: nat): nat {
    if k == 0 then x else 2 * Shifted(x, k - 1)
  }

  lemma {:induction false} ShiftedIsProduct(x: nat, k: nat)
    ensures Shifted(x, k) == x * Pow(2, k)
  {
    if k > 0 {
      ShiftedIsProduct(x, k - 1);
    }
  }

  lemma {:induction false} OrShifted(x: nat, y: nat, k: nat)
    requires y < Pow(2, k)
    ensures Or(Shifted(x, k), y) == Shifted(x, k) + y
    decreases k
  {
    if k == 0 {
      OrZero(x);
    } else {
      var b, v := Halves(y);
      OrShifted(x, b, k - 1);
      OrDigit(Shifted(x, k - 1), 0, b, v);
    }
  }

  /** Joining a shifted word with one that fits under the shift is addition. */
  lemma OrDisjoint(x: nat, y: nat, k: nat)
    requires y < Pow(2, k)
    ensures Or(x * Pow(2, k), y) == x * Pow(2, k) + y
  {
    ShiftedIsProduct(x, k);
    OrShifted(x, y, k);
  }

  // ---------------------------------------------------------------- 32-bit words

  const MASK_32 := 0xffff_ffff

  type word = x: nat | x < TWO_32

  /** What storing a Number in a Uint32Array, or `x >>> 0`, keeps of it. */
  function ToUint32(x: int): word { x % TWO_32 }

  /** The signed reading every JavaScript bitwise operator but `>>>` answers. */
  function ToInt32(x: int): int {
    var u := ToUint32(x);
    if u < 0x8000_0000 then u else u - TWO_32
  }

  function JsXor(x: int, y: int): int { ToInt32(Xor(ToUint32(x), ToUint32(y))) }

  function JsAnd(x: int, y: int): int { ToInt32(And(ToUint32(x), ToUint32(y))) }

  function JsOr(x: int, y: int): int { ToInt32(Or(ToUint32(x), ToUint32(y))) }

  function JsShiftLeft(x: int, places: nat): int
    requires places < 32
  {
    ToInt32(ToUint32(x) * Pow(2, places))
  }

  function JsShiftRightUnsigned(x: int, places: nat): word
    requires places < 32
  {
    ToUint32(ToUint32(x) / Pow(2, places))
  }

  /** `rotateLeft` of the source, on signed Numbers. */
  function RotateLeft(value: int, places: nat): int
    requires 0 < places < 32
  {
    JsAnd(JsOr(JsShiftLeft(value, places), JsShiftRightUnsigned(value, 32 - places)), MASK_32)
  }

  // Word arithmetic of section 2.1 of RFC 8439: addition modulo 2^32, exclusive
  // or, and rotation as swapping the high and the low part of a word.

  function Plus(x: word, y: word): word { (x + y) % TWO_32 }

  function Minus(x: word, y: word): word { (x - y) % TWO_32 }

  function XorWords(x: word, y: word): word {
    TwoTo32();
    XorBound(x, y, 32);
    Xor(x, y)
  }

  /** The two parts of x around d, swapped. */
  function Swapped(x: nat, p: nat, d: nat): nat
    requires d > 0
  {
    var high, low := x / d, x % d;
    MulMonotone(0, low, p);
    low * p + high
  }

  function Rotl(x: word, places: nat): (r: word)
    requires 0 < places < 32
  {
    RotationParts(x, places);
    Swapped(x, Pow(2, places), Pow(2, 32 - places))
  }

  lemma RotationParts(x: word, places: nat)
    requires 0 < places < 32
    ensures Pow(2, places) * Pow(2, 32 - places) == TWO_32
    ensures x / Pow(2, 32 - places) < Pow(2, places)
    ensures Swapped(x, Pow(2, places), Pow(2, 32 - places)) < TWO_32
  {
    PowAdd(2, places, 32 - places);
    TwoTo32();
    HighAndLowParts(x, Pow(2, places), Pow(2, 32 - places));
  }

  lemma HighAndLowParts(x: nat, p: nat, d: nat)
    requires p > 0 && d > 0 && x < p * d
    ensures x / d < p
    ensures 0 <= x % d * p
    ensures x % d * p + x / d < p * d && Swapped(x, p, d) < p * d
  {
    var high, low := x / d, x % d;
    if p <= high {
      MulMonotone(p, high, d);
      assert false;
    }
    MulMonotone(low + 1, d, p);
    MulDistributes(low, 1, p);
    MulMonotone(0, low, p);
  }

  lemma TurnedTwice(x: nat, p: nat, d: nat)
    requires p > 0 && d > 0 && x < p * d
    ensures Swapped(Swapped(x, p, d), d, p) == x
  {
    HighAndLowParts(x, p, d);
    var high, low := x / d, x % d;
    DivModUnique(Swapped(x, p, d), p, low, high);
  }

  lemma RotateBack(x: word, places: nat)
    requires 0 < places < 32
    ensures Rotl(Rotl(x, places), 32 - places) == x
  {
    RotationParts(x, places);
    TurnedTwice(x, Pow(2, places), Pow(2, 32 - places));
  }

  lemma {:induction false} BitAbove(x: nat, m: nat, k: nat)
    ensures Bit(x / Pow(2, m), k) == Bit(x, k + m)
    decreases m
  {
    if m == 0 {
      assert x / Pow(2, 0) == x;
    } else {
      DivideTwice(x, 2, Pow(2, m - 1));
      BitAbove(x / 2, m - 1, k);
    }
  }

  lemma {:induction false} BitBelow(x: nat, m: nat, k: nat)
    requires k < m
    ensures Bit(x % Pow(2, m), k) == Bit(x, k)
    decreases m
  {
    var a, u := Halves(x);
    LastDigitMod(a, u, Pow(2, m - 1));
    BitOf(a, u, k);
    BitOf(a % Pow(2, m - 1), u, k);
    if k > 0 {
      BitBelow(a, m - 1, k - 1);
    }
  }

  lemma {:induction false} BitJoined(upper: nat, lower: nat, n: nat, k: nat)
    requires lower < Pow(2, n)
    ensures Bit(Shifted(upper, n) + lower, k) == if k < n then Bit(lower, k) else Bit(upper, k - n)
    decreases n
  {
    if n > 0 {
      var a, u := Halves(lower);
      BitOf(Shifted(upper, n - 1) + a, u, k);
      BitOf(a, u, k);
      if k > 0 {
        BitJoined(upper, a, n - 1, k - 1);
      }
    }
  }

  /** Bit k of a rotated word is the bit as many places below it, around the word. */
  lemma RotlBit(x: word, places: nat, k: nat)
    requires 0 < places < 32 && k < 32
    ensures Bit(Rotl(x, places), k) == Bit(x, if k < places then k + 32 - places else k - places)
  {
    RotationParts(x, places);
    var d := Pow(2, 32 - places);
    ShiftedIsProduct(x % d, places);
    BitJoined(x % d, x / d, places, k);
    if k < places {
      BitAbove(x, 32 - places, k);
    } else {
      BitBelow(x, 32 - places, k - places);
    }
  }

  lemma MinusPlus(x: word, y: word)
    ensures Minus(Plus(x, y), y) == x
    ensures Plus(Minus(x, y), y) == x
  {
    assert Plus(x, y) == if x + y < TWO_32 then x + y else x + y - TWO_32;
    assert Minus(x, y) == if x >= y then x - y else x - y + TWO_32;
  }

  lemma PlusWraps(x: word, y: word)
    ensures Plus(x, y) == if x + y < 0x1_0000_0000 then x + y else x + y - 0x1_0000_0000
  {
  }

  lemma SignedAndBack(x: int)
    ensures ToUint32(ToInt32(x)) == ToUint32(x)
  {
  }

  lemma WordStays(x: word)
    ensures ToUint32(x) == x && ToUint32(ToInt32(x)) == x
  {
  }

  lemma MaskKeeps(u: nat, mask: nat, k: nat)
    requires mask == Pow(2, k) - 1 && u <= mask
    ensures And(u, mask) == u
  {
    AndMask(u, k);
    DivModUnique(u, mask + 1, 0, u);
  }

  lemma AndMask32(x: int)
    ensures ToUint32(JsAnd(x, MASK_32)) == ToUint32(x)
  {
    var u := ToUint32(x);
    TwoTo32();
    MaskKeeps(u, MASK_32, 32);
    WordStays(MASK_32);
    WordStays(u);
    assert JsAnd(x, MASK_32) == ToInt32(u);
  }

  lemma ShiftedParts(x: nat, hi: nat, lo: nat, p: nat, d: nat, all: nat)
    requires x == hi * d + lo && d * p == all && 0 <= lo * p < all
    ensures x * p % all == lo * p
  {
    var high, low := hi * d, lo * p;
    MulDistributes(high, lo, p);
    MulAssociates(hi, d, p);
    DivModUnique(x * p, all, hi, low);
  }

  lemma ShiftLeftWord(x: word, p: nat, d: nat)
    requires p > 0 && d > 0 && p * d == TWO_32
    ensures 0 <= x % d * p < TWO_32
    ensures x * p % TWO_32 == x % d * p
  {
    HighAndLowParts(x, p, d);
    var hi, lo := x / d, x % d;
    assert lo * p + hi < TWO_32;
    ShiftedParts(x, hi, lo, p, d, TWO_32);
  }

  lemma ShiftedLeft(value: int, places: nat)
    requires 0 < places < 32
    ensures ToUint32(JsShiftLeft(value, places)) == ToUint32(value) % Pow(2, 32 - places) * Pow(2, places)
  {
    var x := ToUint32(value);
    RotationParts(x, places);
    ShiftLeftWord(x, Pow(2, places), Pow(2, 32 - places));
    SignedAndBack(x * Pow(2, places));
  }

  lemma QuotientAtMost(x: nat, d: nat)
    requires d > 0
    ensures 0 <= x / d <= x
  {
    var q, r := x / d, x % d;
    assert x == q * d + r;
    MulMonotone(1, d, q);
  }

  lemma ShiftedRight(value: int, places: nat)
    requires 0 < places < 32
    ensures JsShiftRightUnsigned(value, 32 - places) == ToUint32(value) / Pow(2, 32 - places)
  {
    var x, d := ToUint32(value), Pow(2, 32 - places);
    QuotientAtMost(x, d);
    WordStays(x / d);
  }

  lemma MaskedWord(w: word)
    ensures ToUint32(JsAnd(ToInt32(w), MASK_32)) == w
  {
    var x := ToInt32(w);
    WordStays(w);
    AndMask32(x);
    assert ToUint32(x) == w;
  }

  lemma JoinedHalves(left: int, right: word, joined: word)
    requires Or(ToUint32(left), right) == joined
    ensures ToUint32(JsAnd(JsOr(left, right), MASK_32)) == joined
  {
    WordStays(right);
    MaskedWord(joined);
    assert JsOr(left, right) == ToInt32(joined);
  }

  lemma RotateLeftIsRotation(value: int, places: nat)
    requires 0 < places < 32
    ensures ToUint32(RotateLeft(value, places)) == Rotl(ToUint32(value), places)
  {
    ShiftedLeft(value, places);
    ShiftedRight(value, places);
    var x := ToUint32(value);
    RotationParts(x, places);
    OrDisjoint(x % Pow(2, 32 - places), x / Pow(2, 32 - places), places);
    JoinedHalves(JsShiftLeft(value, places), JsShiftRightUnsigned(value, 32 - places), Rotl(x, places));
  }

  lemma SignedXor(x: word, y: word)
    ensures ToUint32(JsXor(x, y)) == XorWords(x, y)
  {
    WordStays(x);
    WordStays(y);
    WordStays(XorWords(x, y));
  }

  /** A masked JavaScript sum, stored in a Uint32Array, is addition modulo 2^32. */
  lemma JsSumIsPlus(x: word, y: word)
    ensures ToUint32(JsAnd(x as int + y, MASK_32)) == Plus(x, y)
  {
    AndMask32(x as int + y);
  }

  /** So is `rotateLeft` of a signed exclusive or the rotation of the words' one. */
  lemma JsRotateIsRotl(x: word, y: word, places: nat)
    requires 0 < places < 32
    ensures ToUint32(RotateLeft(JsXor(x, y), places)) == Rotl(XorWords(x, y), places)
  {
    SignedXor(x, y);
    RotateLeftIsRotation(JsXor(x, y), places);
  }
}
