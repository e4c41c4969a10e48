/**
 RFC 8439 by itself: the quarter round on four words, the rounds, the block, the key
 stream, the authenticator and the sealing, byte by byte. What the generator computes
 is proved to be this, for every input.
 */
module Rfc8439 {
  import opened Common
  import opened Bits
  import opened Numerals
  import ChaCha
  import Poly
  import Aead

  // ------------------------------------------------------------------------- rounds

  datatype Words = Words(a: word, b: word, c: word, d: word)

  /** Section 2.1. */
  function Quarter(w: Words): Words {
    var a1 := Plus(w.a, w.b);
    var d1 := Rotl(XorWords(w.d, a1), 16);
    var c1 := Plus(w.c, d1);
    var b1 := Rotl(XorWords(w.b, c1), 12);
    var a2 := Plus(a1, b1);
    var d2 := Rotl(XorWords(d1, a2), 8);
    var c2 := Plus(c1, d2);
    Words(a2, Rotl(XorWords(b1, c2), 7), c2, d2)
  }

  /** Section 2.2: a quarter round on four of the sixteen words. */
  function QuarterAt(s: ChaCha.state, a: nat, b: nat, c: nat, d: nat): ChaCha.state
    requires a < 16 && b < 16 && c < 16 && d < 16
  {
    var w := Quarter(Words(s[a], s[b], s[c], s[d]));
    s[a := w.a][b := w.b][c := w.c][d := w.d]
  }

  const COLUMNS: seq<ChaCha.Quad> :=
    [ChaCha.Quad(0, 4, 8, 12), ChaCha.Quad(1, 5, 9, 13), ChaCha.Quad(2, 6, 10, 14), ChaCha.Quad(3, 7, 11, 15)]

  const DIAGONALS: seq<ChaCha.Quad> :=
    [ChaCha.Quad(0, 5, 10, 15), ChaCha.Quad(1, 6, 11, 12), ChaCha.Quad(2, 7, 8, 13), ChaCha.Quad(3, 4, 9, 14)]

  predicate AreQuads(qs: seq<ChaCha.Quad>) { forall i :: 0 <= i < |qs| ==> ChaCha.IsQuad(qs[i]) }

  /** A quarter round on each, in turn. */
  function InTurn(s: ChaCha.state, qs: seq<ChaCha.Quad>): ChaCha.state
    requires AreQuads(qs)
  {
    if qs == [] then s
    else
      var q := qs[|qs| - 1];
      QuarterAt(InTurn(s, qs[..|qs| - 1]), q.a, q.b, q.c, q.d)
  }

  lemma TheyAreQuads()
    ensures AreQuads(COLUMNS) && AreQuads(DIAGONALS)
  {
  }

  type Step = ChaCha.state -> ChaCha.state

  function Turning(qs: seq<ChaCha.Quad>): Step
    requires AreQuads(qs)
  {
    (s: ChaCha.state) => InTurn(s, qs)
  }

  function Both(first: Step, second: Step): Step { (s: ChaCha.state) => second(first(s)) }

  /** A column round, then a diagonal round. */
  function DoubleRound(): Step {
    TheyAreQuads();
    Both(Turning(COLUMNS), Turning(DIAGONALS))
  }

  function Times(step: Step, n: nat, s: ChaCha.state): ChaCha.state {
    if n == 0 then s else step(Times(step, n - 1, s))
  }

  lemma QuarterLinesAre(s: ChaCha.state, q: ChaCha.Quad)
    requires ChaCha.IsQuad(q)
    ensures ChaCha.Run(s, ChaCha.QuarterLines(q)) == QuarterAt(s, q.a, q.b, q.c, q.d)
  {
    ChaCha.QuarterWords(s, q);
    var t, w := ChaCha.Run(s, ChaCha.QuarterLines(q)), Quarter(Words(s[q.a], s[q.b], s[q.c], s[q.d]));
    assert t[q.a] == w.a && t[q.b] == w.b && t[q.c] == w.c && t[q.d] == w.d;
    QuarterInPlace(s, q, t, w);
  }

  lemma QuarterInPlace(s: ChaCha.state, q: ChaCha.Quad, t: ChaCha.state, w: Words)
    requires ChaCha.IsQuad(q) && t[q.a] == w.a && t[q.b] == w.b && t[q.c] == w.c && t[q.d] == w.d
    requires forall i :: 0 <= i < 16 && i !in {q.a, q.b, q.c, q.d} ==> t[i] == s[i]
    ensures t == s[q.a := w.a][q.b := w.b][q.c := w.c][q.d := w.d]
  {
  }

  /** The lines of some quarter rounds. */
  function LinesOf(qs: seq<ChaCha.Quad>): (ls: seq<ChaCha.Line>)
    requires AreQuads(qs)
    ensures ChaCha.AreLines(ls)
  {
    if qs == [] then [] else LinesOf(qs[..|qs| - 1]) + ChaCha.QuarterLines(qs[|qs| - 1])
  }

  lemma {:induction false} LinesInTurn(s: ChaCha.state, qs: seq<ChaCha.Quad>)
    requires AreQuads(qs)
    ensures ChaCha.Run(s, LinesOf(qs)) == InTurn(s, qs)
  {
    if qs != [] {
      var front, q := qs[..|qs| - 1], qs[|qs| - 1];
      LinesInTurn(s, front);
      ChaCha.RunAppends(s, LinesOf(front), ChaCha.QuarterLines(q));
      QuarterLinesAre(InTurn(s, front), q);
    }
  }

  lemma OneQuadMore(front: seq<ChaCha.Quad>, q: ChaCha.Quad)
    requires AreQuads(front) && ChaCha.IsQuad(q)
    ensures AreQuads(front + [q]) && LinesOf(front + [q]) == LinesOf(front) + ChaCha.QuarterLines(q)
  {
    assert (front + [q])[..|front|] == front;
  }

  lemma FourQuads(p: ChaCha.Quad, q: ChaCha.Quad, r: ChaCha.Quad, t: ChaCha.Quad)
    requires ChaCha.IsQuad(p) && ChaCha.IsQuad(q) && ChaCha.IsQuad(r) && ChaCha.IsQuad(t)
    ensures AreQuads([p, q, r, t]) && LinesOf([p, q, r, t]) == ChaCha.FourQuarters(p, q, r, t)
  {
    var none: seq<ChaCha.Quad> := [];
    OneQuadMore(none, p);
    OneQuadMore([p], q);
    OneQuadMore([p, q], r);
    OneQuadMore([p, q, r], t);
    assert none + [p] == [p] && [p] + [q] == [p, q] && [p, q] + [r] == [p, q, r] && [p, q, r] + [t] == [p, q, r, t];
    assert LinesOf(none) + ChaCha.QuarterLines(p) == ChaCha.QuarterLines(p);
  }

  function Rounds(s: ChaCha.state, n: nat): ChaCha.state { Times(DoubleRound(), n, s) }

  /** Running the lines is one step. */
  ghost predicate AreStep(ls: seq<ChaCha.Line>, step: Step) {
    ChaCha.AreLines(ls) && forall t :: ChaCha.Run(t, ls) == step(t)
  }

  lemma {:induction false} RepeatedIs(ls: seq<ChaCha.Line>, step: Step, n: nat, s: ChaCha.state)
    requires AreStep(ls, step)
    ensures ChaCha.RunTimes(s, ls, n) == Times(step, n, s)
  {
    if n > 0 {
      RepeatedIs(ls, step, n - 1, s);
      ChaCha.RunAppends(s, ChaCha.Repeated(ls, n - 1), ls);
    }
  }

  lemma TurningIs(qs: seq<ChaCha.Quad>)
    requires AreQuads(qs)
    ensures AreStep(LinesOf(qs), Turning(qs))
  {
    forall t
      ensures ChaCha.Run(t, LinesOf(qs)) == Turning(qs)(t)
    {
      LinesInTurn(t, qs);
    }
  }

  lemma BothAre(a: seq<ChaCha.Line>, b: seq<ChaCha.Line>, f: Step, g: Step)
    requires AreStep(a, f) && AreStep(b, g)
    ensures AreStep(a + b, Both(f, g))
  {
    forall t
      ensures ChaCha.Run(t, a + b) == Both(f, g)(t)
    {
      ChaCha.RunAppends(t, a, b);
    }
  }

  lemma EveryDoubleRound()
    ensures AreStep(ChaCha.DoubleRoundLines(), DoubleRound())
  {
    TheyAreQuads();
    FourQuads(ChaCha.Quad(0, 4, 8, 12), ChaCha.Quad(1, 5, 9, 13), ChaCha.Quad(2, 6, 10, 14), ChaCha.Quad(3, 7, 11, 15));
    FourQuads(ChaCha.Quad(0, 5, 10, 15), ChaCha.Quad(1, 6, 11, 12), ChaCha.Quad(2, 7, 8, 13), ChaCha.Quad(3, 4, 9, 14));
    TurningIs(COLUMNS);
    TurningIs(DIAGONALS);
    BothAre(ChaCha.Columns(), ChaCha.Diagonals(), Turning(COLUMNS), Turning(DIAGONALS));
  }

  lemma PermuteIs(s: ChaCha.state)
    ensures ChaCha.Permute(s) == Rounds(s, 10)
  {
    EveryDoubleRound();
    RepeatedIs(ChaCha.DoubleRoundLines(), DoubleRound(), 10, s);
  }

  // -------------------------------------------------------------------------- block

  /** Four bytes, the first the least significant. */
  function WordOf(b: bytes, at: nat): word
    requires at + 4 <= |b|
  {
    Join(b[at], b[at + 1], b[at + 2], b[at + 3])
  }

  function Join(b0: nat, b1: nat, b2: nat, b3: nat): nat { b0 + 0x100 * b1 + 0x1_0000 * b2 + 0x100_0000 * b3 }

  /** Section 2.3: the constants, eight words of key, the counter, three words of nonce. */
  function Start(key: bytes, counter: nat, nonce: bytes): ChaCha.state
    requires |key| >= 32 && |nonce| >= 12
  {
    [0x6170_7865, 0x3320_646e, 0x7962_2d32, 0x6b20_6574,
     WordOf(key, 0), WordOf(key, 4), WordOf(key, 8), WordOf(key, 12),
     WordOf(key, 16), WordOf(key, 20), WordOf(key, 24), WordOf(key, 28),
     counter % 0x1_0000_0000, WordOf(nonce, 0), WordOf(nonce, 4), WordOf(nonce, 8)]
  }

  /** Byte i of a number, from the least significant. */
  function ByteOf(n: nat, i: nat): byte { n / Pow(256, i) % 256 }

  /** The sums of two states, each word as four bytes. */
  function Serialized(start: ChaCha.state, end: ChaCha.state): (b: bytes)
    ensures |b| == 64
  {
    seq(64, j requires 0 <= j < 64 => ByteOf(Plus(start[j / 4], end[j / 4]), j % 4))
  }

  /** The rounds, and the state they began with added to what they gave. */
  function Mixed(start: ChaCha.state, rounds: nat): (b: bytes)
    ensures |b| == 64
  {
    Serialized(start, Rounds(start, rounds))
  }

  function Block(key: bytes, counter: nat, nonce: bytes): (b: bytes)
    requires |key| >= 32 && |nonce| >= 12
    ensures |b| == 64
  {
    Mixed(Start(key, counter, nonce), 10)
  }

  lemma SumOfFour(w: bytes)
    requires |w| == 4
    ensures LittleEndianSum(w) == Join(w[0], w[1], w[2], w[3])
  {
    var w1 := w[1..];
    var w2 := w1[1..];
    var w3 := w2[1..];
    assert LittleEndianSum(w3) == w[3];
    assert LittleEndianSum(w2) == w[2] + 256 * LittleEndianSum(w3);
    assert LittleEndianSum(w1) == w[1] + 256 * LittleEndianSum(w2);
  }

  lemma WordAtIs(b: bytes, at: nat)
    requires at + 4 <= |b|
    ensures ChaCha.WordAt(b, at) == WordOf(b, at)
  {
    SumOfFour(b[at..at + 4]);
  }

  lemma StartIs(key: bytes, counter: nat, nonce: bytes)
    requires |key| >= 32 && |nonce| >= 12
    ensures ChaCha.Initial(key, counter, nonce) == Start(key, counter, nonce)
  {
    forall i | 0 <= i < 8
      ensures ChaCha.WordAt(key, 4 * i) == WordOf(key, 4 * i)
    {
      WordAtIs(key, 4 * i);
    }
    forall i | 0 <= i < 3
      ensures ChaCha.WordAt(nonce, 4 * i) == WordOf(nonce, 4 * i)
    {
      WordAtIs(nonce, 4 * i);
    }
  }

  lemma SumsAre(start: ChaCha.state, end: ChaCha.state)
    ensures ChaCha.Sums(end, start) == Serialized(start, end)
  {
    forall j | 0 <= j < 64
      ensures ChaCha.SumByte(end, start, j) == ByteOf(Plus(start[j / 4], end[j / 4]), j % 4)
    {
      LittleEndianByteAt(Plus(end[j / 4], start[j / 4]), 4, j % 4);
    }
  }

  /** The block function of the generator is that of section 2.3, for every key, counter and nonce. */
  lemma BlockIsTheRfcs(key: bytes, counter: nat, nonce: bytes)
    requires |key| >= 32 && |nonce| >= 12
    ensures ChaCha.Block(key, counter, nonce) == Block(key, counter, nonce)
  {
    var start := ChaCha.Initial(key, counter, nonce);
    StartIs(key, counter, nonce);
    PermuteIs(start);
    SumsAre(start, ChaCha.Permute(start));
  }

  // ------------------------------------------------------------------ stream and tag

  type Blocks = nat -> ChaCha.block

  function BlocksOf(key: bytes, nonce: bytes): Blocks
    requires |key| >= 32 && |nonce| >= 12
  {
    (counter: nat) => Block(key, counter, nonce)
  }

  /** Section 2.4: byte i, exclusive or byte i mod 64 of the block i / 64 blocks on. */
  function Encrypted(blocks: Blocks, counter: nat, input: bytes): (output: bytes)
    ensures |output| == |input|
  {
    seq(|input|, i requires 0 <= i < |input| => Xor(input[i], blocks(counter + i / 64)[i % 64]) % 256)
  }

  ghost predicate SameBlocks(a: Blocks, b: Blocks) { forall counter :: a(counter) == b(counter) }

  lemma BlocksAreTheRfcs(key: bytes, nonce: bytes)
    requires |key| >= 32 && |nonce| >= 12
    ensures SameBlocks(ChaCha.Blocks(key, nonce), BlocksOf(key, nonce))
  {
    forall counter
      ensures ChaCha.Blocks(key, nonce)(counter) == BlocksOf(key, nonce)(counter)
    {
      BlockIsTheRfcs(key, counter, nonce);
    }
  }

  lemma SameStream(a: Blocks, b: Blocks, counter: nat, input: bytes)
    requires SameBlocks(a, b)
    ensures ChaCha.XorAll(input, ChaCha.KeyStream(a, counter, |input|)) == Encrypted(b, counter, input)
  {
    forall i | 0 <= i < |input|
      ensures Xor(input[i], a(counter + i / 64)[i % 64]) < 256
    {
      assert Pow(2, 8) == 256;
      XorBound(input[i], a(counter + i / 64)[i % 64], 8);
    }
  }

  /** The stream of the generator is that of section 2.4, for inputs of any length. */
  lemma StreamIsTheRfcs(key: bytes, counter: nat, nonce: bytes, input: bytes)
    requires |key| >= 32 && |nonce| >= 12
    ensures ChaCha.Stream(key, counter, nonce, input) == Encrypted(BlocksOf(key, nonce), counter, input)
  {
    BlocksAreTheRfcs(key, nonce);
    SameStream(ChaCha.Blocks(key, nonce), BlocksOf(key, nonce), counter, input);
  }

  /** The bits of r that section 2.5 clears. */
  function Clamped(key: bytes): (r: bytes)
    requires |key| == 32
    ensures |r| == 16
  {
    seq(16, i requires 0 <= i < 16 =>
      if i in {3, 7, 11, 15} then key[i] % 16 else if i in {4, 8, 12} then key[i] - key[i] % 4 else key[i])
  }

  /** Chunk i of sixteen bytes; the last one may be shorter. */
  function Chunk(message: bytes, i: nat): bytes
    requires 16 * i < |message|
  {
    message[16 * i..if 16 * i + 16 < |message| then 16 * i + 16 else |message|]
  }

  /** The accumulator of section 2.5.1 after n chunks, each with a byte of one behind it. */
  function Accumulated(message: bytes, r: nat, p: nat, n: nat): nat
    requires 16 * n < |message| + 16 && p > 0
  {
    if n == 0 then 0
    else (Accumulated(message, r, p, n - 1) + LittleEndianSum(Chunk(message, n - 1) + [1])) * r % p
  }

  const PRIME: nat := Pow(2, 130) - 5

  function TagNumber(key: bytes, message: bytes): nat
    requires |key| == 32
  {
    var r, s := LittleEndianSum(Clamped(key)), LittleEndianSum(key[16..]);
    (Accumulated(message, r, PRIME, (|message| + 15) / 16) + s) % Pow(2, 128)
  }

  // What masking with the clamp does to each byte.

  lemma {:induction false} AndSplits(x: nat, x': nat, y: nat, y': nat, k: nat)
    requires x < Pow(2, k) && y < Pow(2, k)
    ensures And(x + Shifted(x', k), y + Shifted(y', k)) == And(x, y) + Shifted(And(x', y'), k)
    decreases k
  {
    if k == 0 {
      assert And(0, 0) == 0;
    } else {
      var a, u := Halves(x);
      var b, v := Halves(y);
      AndSplits(a, x', b, y', k - 1);
      SplitDigits(a, u, Shifted(x', k - 1), b, v, Shifted(y', k - 1), Shifted(And(x', y'), k - 1));
    }
  }

  lemma SplitDigits(a: nat, u: nat, p: nat, b: nat, v: nat, q: nat, both: nat)
    requires u < 2 && v < 2 && And(a + p, b + q) == And(a, b) + both
    ensures And(2 * a + u + 2 * p, 2 * b + v + 2 * q) == And(2 * a + u, 2 * b + v) + 2 * both
  {
    AndDigit(a, u, b, v);
    AndDigit(a + p, u, b + q, v);
    assert 2 * (a + p) + u == 2 * a + u + 2 * p && 2 * (b + q) + v == 2 * b + v + 2 * q;
  }

  function AndBytes(x: byte, y: byte): byte {
    AndBound(x, y);
    And(x, y)
  }

  function AndAll(a: bytes, b: bytes): (r: bytes)
    requires |a| == |b|
    ensures |r| == |a|
  {
    seq(|a|, i requires 0 <= i < |a| => AndBytes(a[i], b[i]))
  }

  lemma AndOneMore(x: byte, x': nat, y: byte, y': nat)
    ensures And(x + 256 * x', y + 256 * y') == And(x, y) + 256 * And(x', y')
  {
    assert Pow(2, 8) == 256;
    AndSplits(x, x', y, y', 8);
    ShiftedIsProduct(x', 8);
    ShiftedIsProduct(y', 8);
    ShiftedIsProduct(And(x', y'), 8);
  }

  lemma {:induction false} AndByBytes(a: bytes, b: bytes)
    requires |a| == |b|
    ensures And(LittleEndianSum(a), LittleEndianSum(b)) == LittleEndianSum(AndAll(a, b))
  {
    if a != [] {
      AndByBytes(a[1..], b[1..]);
      AndOneMore(a[0], LittleEndianSum(a[1..]), b[0], LittleEndianSum(b[1..]));
      assert AndAll(a, b)[1..] == AndAll(a[1..], b[1..]);
    }
  }

  lemma {:induction false} LittleEndianAppends(a: bytes, b: bytes)
    ensures LittleEndianSum(a + b) == LittleEndianSum(a) + Pow(256, |a|) * LittleEndianSum(b)
  {
    if a == [] {
      assert a + b == b;
    } else {
      LittleEndianAppends(a[1..], b);
      assert (a + b)[1..] == a[1..] + b;
      MulAssociates(256, Pow(256, |a| - 1), LittleEndianSum(b));
    }
  }

  /** The bytes of the clamp, the least significant first. */
  const LOW_MASK: bytes := [255, 255, 255, 15]
  const MASK: bytes := [252, 255, 255, 15]

  lemma MaskIsTheClamp()
    ensures LittleEndianSum(LOW_MASK + (MASK + (MASK + MASK))) == Poly.CLAMP
  {
    ChaCha.FourBytes();
    SumOfFour(LOW_MASK);
    SumOfFour(MASK);
    LittleEndianAppends(MASK, MASK);
    LittleEndianAppends(MASK, MASK + MASK);
    LittleEndianAppends(LOW_MASK, MASK + (MASK + MASK));
  }

  lemma MasksLow(x: nat, mask: nat, k: nat, p: nat)
    requires p == Pow(2, k) && mask == p - 1
    ensures And(x, mask) == x % p
  {
    AndMask(x, k);
  }

  lemma MasksHigh(x: nat, mask: nat, upper: nat)
    requires mask == 2 * (2 * upper)
    ensures And(x, mask) == 4 * And(x / 4, upper)
  {
    var a, u := Halves(x);
    var b, v := Halves(a);
    AndDigit(a, u, 2 * upper, 0);
    AndDigit(b, v, upper, 0);
    assert b == x / 4;
  }

  lemma MasksFour(x: byte, mask: byte)
    requires mask == 15
    ensures And(x, mask) == x % 16
  {
    assert Pow(2, 4) == 16;
    MasksLow(x, mask, 4, 16);
  }

  lemma MasksUpper(x: nat, mask: nat, upper: nat, p: nat)
    requires mask == 2 * (2 * upper) && p == Pow(2, 6) && upper == p - 1 && x / 4 < p
    ensures And(x, mask) == x - x % 4
  {
    var high := x / 4;
    MaskKeeps(high, upper, 6);
    MasksHigh(x, mask, upper);
  }

  lemma MasksSix(x: byte, mask: byte)
    requires mask == 252
    ensures And(x, mask) == x - x % 4
  {
    assert Pow(2, 6) == 64;
    MasksUpper(x, mask, 63, 64);
  }

  /** A byte under a byte of the clamp. */
  function Masked(x: byte, mask: byte): byte
    requires mask in {15, 252, 255}
  {
    if mask == 15 then x % 16 else if mask == 252 then x - x % 4 else x
  }

  lemma MasksByte(x: byte, mask: byte)
    requires mask in {15, 252, 255}
    ensures And(x, mask) == Masked(x, mask)
  {
    if mask == 15 {
      MasksFour(x, mask);
    } else if mask == 252 {
      MasksSix(x, mask);
    } else {
      assert Pow(2, 8) == 256;
      MaskKeeps(x, mask, 8);
    }
  }

  lemma ClampIsTheRfcs(key: bytes)
    requires |key| == 32
    ensures Poly.R(key) == LittleEndianSum(Clamped(key))
  {
    var low, mask := key[..16], LOW_MASK + (MASK + (MASK + MASK));
    assert Poly.Subarray(key, 0, 16) == low;
    MaskIsTheClamp();
    AndByBytes(low, mask);
    forall i | 0 <= i < 16
      ensures AndAll(low, mask)[i] == Clamped(key)[i]
    {
      MaskAt(mask, i);
      MasksByte(low[i], mask[i]);
    }
    assert AndAll(low, mask) == Clamped(key);
  }

  lemma MaskAt(mask: bytes, i: nat)
    requires mask == LOW_MASK + (MASK + (MASK + MASK)) && i < 16
    ensures |mask| == 16
    ensures mask[i] == if i in {3, 7, 11, 15} then 15 else if i in {4, 8, 12} then 252 else 255
  {
  }

  lemma PrimeIsTheRfcs()
    ensures PRIME == Poly.PRIME && Pow(2, 128) == Poly.TWO_128
  {
    TwoTo128();
    PowAdd(2, 128, 2);
    assert Pow(2, 2) == 4;
  }

  // The chunks, one after the other.

  lemma ChunkBehind(message: bytes, i: nat)
    requires 0 < i && 16 * i < |message|
    ensures Chunk(message[16..], i - 1) == Chunk(message, i)
  {
    var rest := message[16..];
    var from := 16 * (i - 1);
    var to := if from + 16 < |rest| then from + 16 else |rest|;
    assert rest[from..to] == message[16 + from..16 + to];
  }

  lemma {:induction false} ChunksAre(message: bytes, i: nat)
    requires 16 * i < |message|
    ensures |Poly.Chunks(message)| == (|message| + 15) / 16
    ensures Poly.Chunks(message)[i] == Poly.ChunkNumber(Chunk(message, i))
    decreases |message|
  {
    var first := Poly.Subarray(message, 0, 16);
    var rest := message[|first|..];
    if |message| > 16 {
      var j: nat := if i == 0 then 0 else i - 1;
      ChunksAre(rest, j);
      if i > 0 {
        ChunkBehind(message, i);
      }
    }
    assert i == 0 ==> Chunk(message, 0) == first;
  }

  lemma {:induction false} OneBehind(chunk: bytes)
    ensures LittleEndianSum(chunk + [1]) == Poly.ChunkNumber(chunk)
  {
    if chunk == [] {
      assert [] + [1] == [1] && [1][1..] == [];
      assert Pow(2, 0) == 1;
    } else {
      OneBehind(chunk[1..]);
      assert (chunk + [1])[1..] == chunk[1..] + [1];
      PowAdd(2, 8, 8 * |chunk[1..]|);
      assert Pow(2, 8) == 256;
    }
  }

  lemma {:induction false} AccumulateOneMore(step: (nat, nat) -> nat, a: nat, cs: seq<nat>, c: nat)
    ensures Poly.Accumulate(step, a, cs + [c]) == step(Poly.Accumulate(step, a, cs), c)
    decreases |cs|
  {
    if cs == [] {
      assert [] + [c] == [c] && [c][1..] == [];
    } else {
      AccumulateOneMore(step, step(a, cs[0]), cs[1..], c);
      assert (cs + [c])[1..] == cs[1..] + [c];
    }
  }

  lemma {:induction false} AccumulatesChunks(message: bytes, r: nat, p: nat, n: nat)
    requires 16 * n < |message| + 16 && p > 0 && n <= |Poly.Chunks(message)|
    ensures Poly.Accumulate(Poly.Step(r, p), 0, Poly.Chunks(message)[..n]) == Accumulated(message, r, p, n)
    decreases n
  {
    if n > 0 {
      var cs := Poly.Chunks(message);
      AccumulatesChunks(message, r, p, n - 1);
      ChunksAre(message, n - 1);
      OneBehind(Chunk(message, n - 1));
      AccumulateOneMore(Poly.Step(r, p), 0, cs[..n - 1], cs[n - 1]);
      assert cs[..n] == cs[..n - 1] + [cs[n - 1]];
    }
  }

  /** The number of the tag is that of section 2.5, for every one-time key and message of any length. */
  lemma TagIsTheRfcs(key: bytes, message: bytes)
    requires |key| == 32
    ensures Poly.TagNumber(key, message) == TagNumber(key, message)
  {
    var cs, n, r := Poly.Chunks(message), (|message| + 15) / 16, Poly.R(key);
    ClampIsTheRfcs(key);
    PrimeIsTheRfcs();
    if message != [] {
      ChunksAre(message, 0);
    }
    assert cs[..n] == cs;
    AccumulatesChunks(message, r, PRIME, n);
    Poly.AccumulateFromZero(cs, r, PRIME);
    assert Poly.Subarray(key, 16, 32) == key[16..];
  }

  // ------------------------------------------------------------------------ sealing

  /** The bytes, and as few zeros as make their number a multiple of sixteen. */
  function Padded(b: bytes): bytes { b + seq(-|b| % 16, _ => 0) }

  /** The first `width` bytes of a number, the least significant first. */
  function Little(n: nat, width: nat): bytes { seq(width, i requires 0 <= i < width => ByteOf(n, i)) }

  /** Section 2.8: the ciphertext from block 1, and the tag under the first half of block 0. */
  function Sealed(blocks: Blocks, plaintext: bytes, aad: bytes): bytes {
    var ciphertext := Encrypted(blocks, 1, plaintext);
    var authenticated := Padded(aad) + Padded(ciphertext) + Little(|aad|, 8) + Little(|ciphertext|, 8);
    ciphertext + Little(TagNumber(blocks(0)[..32], authenticated), 16)
  }

  lemma LittleEndianIsLittle(n: nat, width: nat)
    ensures LittleEndianBytes(n, width) == Little(n, width)
  {
    forall i | 0 <= i < width
      ensures LittleEndianBytes(n, width)[i] == ByteOf(n, i)
    {
      LittleEndianByteAt(n, width, i);
    }
  }

  lemma AuthenticatedIs(aad: bytes, ciphertext: bytes)
    requires Aead.IsBuffer(aad) && Aead.IsBuffer(ciphertext)
    ensures Aead.Authenticated(aad, ciphertext)
         == Padded(aad) + Padded(ciphertext) + Little(|aad|, 8) + Little(|ciphertext|, 8)
  {
    LittleEndianIsLittle(|aad|, 8);
    LittleEndianIsLittle(|ciphertext|, 8);
    PaddedIs(aad);
    PaddedIs(ciphertext);
  }

  lemma PaddedIs(b: bytes)
    ensures Aead.PaddedTo16(b) == Padded(b)
  {
    ZerosNeeded(|b|);
  }

  lemma ZerosNeeded(n: int)
    ensures (16 - n % 16) % 16 == (-n) % 16
  {
  }

  lemma TagBytesAre(n: nat)
    requires n < Poly.TWO_128
    ensures Poly.TagBytes(n) == Little(n, 16)
  {
    Poly.TagBytesHoldTheNumber(n);
    Poly.LittleEndianIsSum(Poly.TagBytes(n));
    Poly.BytesAndBits(16);
    TwoTo128();
    LittleEndianRoundTrip(n, 16);
    LittleEndianInjective(Poly.TagBytes(n), LittleEndianBytes(n, 16));
    LittleEndianIsLittle(n, 16);
  }

  lemma SealsWith(blocks: Blocks, key: bytes, nonce: bytes, plaintext: bytes, aad: bytes)
    requires |key| >= 32 && |nonce| >= 12 && Aead.IsBuffer(aad) && Aead.IsBuffer(plaintext)
    requires SameBlocks(ChaCha.Blocks(key, nonce), blocks)
    ensures Aead.Sealed(key, nonce, plaintext, aad) == Sealed(blocks, plaintext, aad)
  {
    SameStream(ChaCha.Blocks(key, nonce), blocks, 1, plaintext);
    assert ChaCha.Blocks(key, nonce)(0) == blocks(0);
    TagOfKey(blocks(0)[..32], aad, Encrypted(blocks, 1, plaintext));
  }

  /** What the generator seals is what section 2.8 does, for every key, nonce, plaintext and associated data. */
  lemma SealedIsTheRfcs(key: bytes, nonce: bytes, plaintext: bytes, aad: bytes)
    requires |key| >= 32 && |nonce| >= 12 && Aead.IsBuffer(aad) && Aead.IsBuffer(plaintext)
    ensures Aead.Sealed(key, nonce, plaintext, aad) == Sealed(BlocksOf(key, nonce), plaintext, aad)
  {
    BlocksAreTheRfcs(key, nonce);
    SealsWith(BlocksOf(key, nonce), key, nonce, plaintext, aad);
  }

  lemma TagOfKey(oneTimeKey: bytes, aad: bytes, ciphertext: bytes)
    requires |oneTimeKey| == 32 && Aead.IsBuffer(aad) && Aead.IsBuffer(ciphertext)
    ensures Poly.TagBytes(Poly.TagNumber(oneTimeKey, Aead.Authenticated(aad, ciphertext)))
         == Little(TagNumber(oneTimeKey, Padded(aad) + Padded(ciphertext) + Little(|aad|, 8) + Little(|ciphertext|, 8)), 16)
  {
    var authenticated := Aead.Authenticated(aad, ciphertext);
    AuthenticatedIs(aad, ciphertext);
    TagIsTheRfcs(oneTimeKey, authenticated);
    TagBytesAre(Poly.TagNumber(oneTimeKey, authenticated));
  }
}
