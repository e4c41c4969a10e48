/** ChaCha20 (sections 2.1 to 2.4 of RFC 8439) as the vector generator computes it. */
module ChaCha {
  import opened Common
  import opened Bits
  import opened Numerals

  type state = s: seq<word> | |s| == 16 witness seq(16, _ => 0)

  // ------------------------------------------------------------------------ lines

  /**
   One line of the quarter round of section 2.1: add word b to word a, then join
   the sum into word d by exclusive or and rotate d.
   */
  datatype Line = Line(a: nat, b: nat, d: nat, places: nat)

  predicate IsLine(l: Line) {
    && l.a < 16 && l.b < 16 && l.d < 16 && 0 < l.places < 32
    && l.a != l.b && l.a != l.d && l.b != l.d
  }

  predicate AreLines(ls: seq<Line>) { forall i :: 0 <= i < |ls| ==> IsLine(ls[i]) }

  function Mix(s: state, l: Line): state
    requires IsLine(l)
  {
    var t := s[l.a := Plus(s[l.a], s[l.b])];
    t[l.d := Rotl(XorWords(t[l.d], t[l.a]), l.places)]
  }

  function Unmix(s: state, l: Line): state
    requires IsLine(l)
  {
    var t := s[l.d := XorWords(Rotl(s[l.d], 32 - l.places), s[l.a])];
    t[l.a := Minus(t[l.a], t[l.b])]
  }

  lemma UnmixUndoesMix(s: state, l: Line)
    requires IsLine(l)
    ensures Unmix(Mix(s, l), l) == s
  {
    var sum := Plus(s[l.a], s[l.b]);
    RotateBack(XorWords(s[l.d], sum), l.places);
    XorCancel(s[l.d], sum);
    MinusPlus(s[l.a], s[l.b]);
  }

  lemma MixUndoesUnmix(s: state, l: Line)
    requires IsLine(l)
    ensures Mix(Unmix(s, l), l) == s
  {
    var turned := Rotl(s[l.d], 32 - l.places);
    RotateBack(s[l.d], 32 - l.places);
    XorCancel(turned, s[l.a]);
    MinusPlus(s[l.a], s[l.b]);
  }

  /** The lines in order. */
  function Run(s: state, ls: seq<Line>): state
    requires AreLines(ls)
  {
    if ls == [] then s else Mix(Run(s, ls[..|ls| - 1]), ls[|ls| - 1])
  }

  /** The lines undone, the last one first. */
  function Unrun(s: state, ls: seq<Line>): state
    requires AreLines(ls)
    decreases |ls|
  {
    if ls == [] then s else Unrun(Unmix(s, ls[|ls| - 1]), ls[..|ls| - 1])
  }

  lemma {:induction false} UnrunInverts(s: state, ls: seq<Line>)
    requires AreLines(ls)
    ensures Unrun(Run(s, ls), ls) == s
    ensures Run(Unrun(s, ls), ls) == s
    decreases |ls|
  {
    if ls != [] {
      var front, l := ls[..|ls| - 1], ls[|ls| - 1];
      UnrunInverts(s, front);
      UnmixUndoesMix(Run(s, front), l);
      UnrunInverts(Unmix(s, l), front);
      MixUndoesUnmix(s, l);
    }
  }

  lemma {:induction false} RunAppends(s: state, front: seq<Line>, ls: seq<Line>)
    requires AreLines(front) && AreLines(ls) && AreLines(front + ls)
    ensures Run(s, front + ls) == Run(Run(s, front), ls)
    decreases |ls|
  {
    if ls == [] {
      assert front + ls == front;
    } else {
      var most := ls[..|ls| - 1];
      assert (front + ls)[..|front + ls| - 1] == front + most;
      RunAppends(s, front, most);
    }
  }

  lemma {:induction false} UntouchedWord(s: state, ls: seq<Line>, i: nat)
    requires AreLines(ls) && i < 16
    requires forall k :: 0 <= k < |ls| ==> ls[k].a != i && ls[k].d != i
    ensures Run(s, ls)[i] == s[i]
    decreases |ls|
  {
    if ls != [] {
      UntouchedWord(s, ls[..|ls| - 1], i);
    }
  }

  // ---------------------------------------------------------------- quarter round

  datatype Quad = Quad(a: nat, b: nat, c: nat, d: nat)

  predicate IsQuad(q: Quad) {
    && q.a < 16 && q.b < 16 && q.c < 16 && q.d < 16
    && q.a != q.b && q.a != q.c && q.a != q.d && q.b != q.c && q.b != q.d && q.c != q.d
  }

  function QuarterLines(q: Quad): (ls: seq<Line>)
    requires IsQuad(q)
    ensures AreLines(ls)
  {
    [Line(q.a, q.b, q.d, 16), Line(q.c, q.d, q.b, 12), Line(q.a, q.b, q.d, 8), Line(q.c, q.d, q.b, 7)]
  }

  /**
   A quarter round has an inverse on both sides, and leaves the twelve words it
   does not name as they were.
   */
  lemma QuarterRoundInverts(s: state, q: Quad)
    requires IsQuad(q)
    ensures Unrun(Run(s, QuarterLines(q)), QuarterLines(q)) == s
    ensures Run(Unrun(s, QuarterLines(q)), QuarterLines(q)) == s
    ensures forall i {:trigger s[i]} :: 0 <= i < 16 && i != q.a && i != q.b && i != q.c && i != q.d ==>
              Run(s, QuarterLines(q))[i] == s[i]
  {
    UnrunInverts(s, QuarterLines(q));
    forall i | 0 <= i < 16 && i != q.a && i != q.b && i != q.c && i != q.d
      ensures Run(s, QuarterLines(q))[i] == s[i]
    {
      UntouchedWord(s, QuarterLines(q), i);
    }
  }

  lemma LineMixes(s: state, l: Line, t: state, sum: word, turned: word)
    requires IsLine(l) && t == Mix(s, l)
    requires sum == Plus(s[l.a], s[l.b]) && turned == Rotl(XorWords(s[l.d], sum), l.places)
    ensures t[l.a] == sum && t[l.d] == turned
    ensures forall i :: 0 <= i < 16 && i != l.a && i != l.d ==> t[i] == s[i]
  {
  }

  /** The four words of section 2.1 after a quarter round; the other twelve stay. */
  lemma QuarterWords(s: state, q: Quad)
    requires IsQuad(q)
    ensures var t := Run(s, QuarterLines(q));
            var a1 := Plus(s[q.a], s[q.b]);
            var d1 := Rotl(XorWords(s[q.d], a1), 16);
            var c1 := Plus(s[q.c], d1);
            var b1 := Rotl(XorWords(s[q.b], c1), 12);
            var a2 := Plus(a1, b1);
            var d2 := Rotl(XorWords(d1, a2), 8);
            var c2 := Plus(c1, d2);
            var b2 := Rotl(XorWords(b1, c2), 7);
            && t[q.a] == a2 && t[q.b] == b2 && t[q.c] == c2 && t[q.d] == d2
            && forall i :: 0 <= i < 16 && i !in {q.a, q.b, q.c, q.d} ==> t[i] == s[i]
  {
    var ls := QuarterLines(q);
    var s1 := Mix(s, ls[0]);
    var s2 := Mix(s1, ls[1]);
    var s3 := Mix(s2, ls[2]);
    var s4 := Mix(s3, ls[3]);
    FourLines(s, s1, s2, s3, s4, ls);
    LineMixes(s, ls[0], s1, s1[q.a], s1[q.d]);
    LineMixes(s1, ls[1], s2, s2[q.c], s2[q.b]);
    LineMixes(s2, ls[2], s3, s3[q.a], s3[q.d]);
    LineMixes(s3, ls[3], s4, s4[q.c], s4[q.b]);
  }

  /** `quarterRound`: JavaScript's signed arithmetic, stored in a Uint32Array. */
  method QuarterRound(state: array<word>, a: nat, b: nat, c: nat, d: nat)
    requires state.Length == 16 && IsQuad(Quad(a, b, c, d))
    modifies state
    ensures state[..] == Run(old(state[..]), QuarterLines(Quad(a, b, c, d)))
    ensures var a1 := Plus(old(state[a]), old(state[b]));
            var d1 := Rotl(XorWords(old(state[d]), a1), 16);
            var c1 := Plus(old(state[c]), d1);
            var b1 := Rotl(XorWords(old(state[b]), c1), 12);
            var a2 := Plus(a1, b1);
            var d2 := Rotl(XorWords(d1, a2), 8);
            var c2 := Plus(c1, d2);
            var b2 := Rotl(XorWords(b1, c2), 7);
            && state[a] == a2 && state[b] == b2 && state[c] == c2 && state[d] == d2
            && forall i :: 0 <= i < 16 && i !in {a, b, c, d} ==> state[i] == old(state[i])
  {
    var q := Quad(a, b, c, d);
    ghost var before := state[..];
    MixFourTimes(state, q);
    QuarterWords(before, q);
    assert forall i :: 0 <= i < 16 ==> state[i] == state[..][i];
  }

  /** The statements of `quarterRound`, two at a time. */
  method MixFourTimes(state: array<word>, q: Quad)
    requires state.Length == 16 && IsQuad(q)
    modifies state
    ensures state[..] == Run(old(state[..]), QuarterLines(q))
  {
    var ls := QuarterLines(q);
    ghost var s0 := state[..];
    MixWords(state, ls[0]);
    ghost var s1 := state[..];
    MixWords(state, ls[1]);
    ghost var s2 := state[..];
    MixWords(state, ls[2]);
    ghost var s3 := state[..];
    MixWords(state, ls[3]);
    FourLines(s0, s1, s2, s3, state[..], ls);
  }

  lemma FourLines(s0: state, s1: state, s2: state, s3: state, s4: state, ls: seq<Line>)
    requires AreLines(ls) && |ls| == 4
    requires s1 == Mix(s0, ls[0]) && s2 == Mix(s1, ls[1]) && s3 == Mix(s2, ls[2]) && s4 == Mix(s3, ls[3])
    ensures s4 == Run(s0, ls)
  {
    assert ls[..3][..2] == ls[..2] && ls[..2][..1] == ls[..1] && ls[..1][..0] == [];
    assert Run(s0, ls[..1]) == s1;
    assert Run(s0, ls[..2]) == s2;
    assert Run(s0, ls[..3]) == s3;
  }

  /** Two statements of `quarterRound`: an addition, then an exclusive or and a rotation. */
  method MixWords(state: array<word>, l: Line)
    requires state.Length == 16 && IsLine(l)
    modifies state
    ensures state[..] == Mix(old(state[..]), l)
  {
    var a, b, d := l.a, l.b, l.d;
    ghost var s := state[..];
    JsSumIsPlus(state[a], state[b]);
    var sum: int := state[a] as int + state[b];
    state[a] := ToUint32(JsAnd(sum, MASK_32));
    ghost var t := state[..];
    assert t == s[a := Plus(s[a], s[b])];
    JsRotateIsRotl(state[d], state[a], l.places);
    state[d] := ToUint32(RotateLeft(JsXor(state[d], state[a]), l.places));
    assert state[..] == t[d := Rotl(XorWords(t[d], t[a]), l.places)];
  }

  // ----------------------------------------------------------------------- rounds

  function FourQuarters(p: Quad, q: Quad, r: Quad, t: Quad): (ls: seq<Line>)
    requires IsQuad(p) && IsQuad(q) && IsQuad(r) && IsQuad(t)
    ensures AreLines(ls)
  {
    QuarterLines(p) + QuarterLines(q) + QuarterLines(r) + QuarterLines(t)
  }

  function Columns(): (ls: seq<Line>)
    ensures AreLines(ls)
  {
    FourQuarters(Quad(0, 4, 8, 12), Quad(1, 5, 9, 13), Quad(2, 6, 10, 14), Quad(3, 7, 11, 15))
  }

  function Diagonals(): (ls: seq<Line>)
    ensures AreLines(ls)
  {
    FourQuarters(Quad(0, 5, 10, 15), Quad(1, 6, 11, 12), Quad(2, 7, 8, 13), Quad(3, 4, 9, 14))
  }

  function DoubleRoundLines(): (ls: seq<Line>)
    ensures AreLines(ls)
  {
    Columns() + Diagonals()
  }

  function Repeated(ls: seq<Line>, n: nat): (all: seq<Line>)
    requires AreLines(ls)
    ensures AreLines(all)
  {
    if n == 0 then [] else Repeated(ls, n - 1) + ls
  }

  lemma OneMoreRound(start: state, ls: seq<Line>, n: nat, before: state, after: state)
    requires AreLines(ls) && before == Run(start, Repeated(ls, n)) && after == Run(before, ls)
    ensures after == Run(start, Repeated(ls, n + 1))
  {
    RunAppends(start, Repeated(ls, n), ls);
  }

  const ROUNDS: nat := 10

  function RunTimes(s: state, ls: seq<Line>, n: nat): state
    requires AreLines(ls)
  {
    Run(s, Repeated(ls, n))
  }

  function Permute(s: state): state { RunTimes(s, DoubleRoundLines(), ROUNDS) }

  function Unpermute(s: state): state { Unrun(s, Repeated(DoubleRoundLines(), ROUNDS)) }

  /** The ten double rounds are a bijection on states. */
  lemma PermuteIsBijective(s: state)
    ensures Unpermute(Permute(s)) == s && Permute(Unpermute(s)) == s
  {
    UnrunInverts(s, Repeated(DoubleRoundLines(), ROUNDS));
  }

  /** The loop body of `chachaBlock`: the eight quarter rounds of a double round. */
  method DoubleRound(working: array<word>)
    requires working.Length == 16
    modifies working
    ensures working[..] == Run(old(working[..]), DoubleRoundLines())
  {
    ghost var s := working[..];
    FourQuarterRounds(working, Quad(0, 4, 8, 12), Quad(1, 5, 9, 13), Quad(2, 6, 10, 14), Quad(3, 7, 11, 15));
    assert working[..] == Run(s, Columns());
    FourQuarterRounds(working, Quad(0, 5, 10, 15), Quad(1, 6, 11, 12), Quad(2, 7, 8, 13), Quad(3, 4, 9, 14));
    RunAppends(s, Columns(), Diagonals());
  }

  method FourQuarterRounds(working: array<word>, p: Quad, q: Quad, r: Quad, t: Quad)
    requires working.Length == 16 && IsQuad(p) && IsQuad(q) && IsQuad(r) && IsQuad(t)
    modifies working
    ensures working[..] == Run(old(working[..]), FourQuarters(p, q, r, t))
  {
    RunsJoin(working[..], p, q, r, t);
    QuarterRound(working, p.a, p.b, p.c, p.d);
    QuarterRound(working, q.a, q.b, q.c, q.d);
    QuarterRound(working, r.a, r.b, r.c, r.d);
    QuarterRound(working, t.a, t.b, t.c, t.d);
  }

  lemma RunsJoin(s: state, p: Quad, q: Quad, r: Quad, t: Quad)
    requires IsQuad(p) && IsQuad(q) && IsQuad(r) && IsQuad(t)
    ensures Run(s, FourQuarters(p, q, r, t))
         == Run(Run(Run(Run(s, QuarterLines(p)), QuarterLines(q)), QuarterLines(r)), QuarterLines(t))
  {
    RunAppends(s, QuarterLines(p), QuarterLines(q));
    RunAppends(s, QuarterLines(p) + QuarterLines(q), QuarterLines(r));
    RunAppends(s, QuarterLines(p) + QuarterLines(q) + QuarterLines(r), QuarterLines(t));
  }

  // ------------------------------------------------------------------------ block

  const SIGMA: seq<word> := [0x61707865, 0x3320646e, 0x79622d32, 0x6b206574]

  /** `buffer.readUInt32LE(at)`. */
  function WordAt(b: bytes, at: nat): (w: word)
    requires at + 4 <= |b|
  {
    LittleEndianBound(b[at..at + 4]);
    FourBytes();
    LittleEndianSum(b[at..at + 4])
  }

  lemma FourBytes()
    ensures Pow(256, 4) == TWO_32
  {
    assert Pow(256, 2) == 0x1_0000;
    PowAdd(256, 2, 2);
  }

  /** The state of section 2.3: constants, key, block counter modulo 2^32, nonce. */
  function Initial(key: bytes, counter: nat, nonce: bytes): state
    requires |key| >= 32 && |nonce| >= 12
  {
    SIGMA + seq(8, i requires 0 <= i < 8 => WordAt(key, 4 * i)) + [ToUint32(counter)]
    + seq(3, i requires 0 <= i < 3 => WordAt(nonce, 4 * i))
  }

  /** Byte j of the little-endian sums of the permuted and the initial words. */
  function SumByte(working: state, initial: state, j: nat): byte
    requires j < 64
  {
    LittleEndianBytes(Plus(working[j / 4], initial[j / 4]), 4)[j % 4]
  }

  function Sums(working: state, initial: state): (b: bytes)
    ensures |b| == 64
  {
    seq(64, j requires 0 <= j < 64 => SumByte(working, initial, j))
  }

  /** The 64 bytes of the block function: permuted plus initial words, little-endian. */
  function Block(key: bytes, counter: nat, nonce: bytes): (b: bytes)
    requires |key| >= 32 && |nonce| >= 12
    ensures |b| == 64
  {
    Sums(Permute(Initial(key, counter, nonce)), Initial(key, counter, nonce))
  }

  /** `chachaBlock`. */
  method ChaChaBlock(key: bytes, counter: nat, nonce: bytes) returns (block: bytes)
    requires |key| >= 32 && |nonce| >= 12
    ensures block == Block(key, counter, nonce)
  {
    var initial := InitialState(key, counter, nonce);
    var working := new word[16](i requires 0 <= i < 16 reads initial => initial[i]);
    assert working[..] == initial[..];
    TenDoubleRounds(working);
    block := Serialize(working, initial);
  }

  /** The rounds loop of `chachaBlock`. */
  method TenDoubleRounds(working: array<word>)
    requires working.Length == 16
    modifies working
    ensures working[..] == Permute(old(working[..]))
  {
    ghost var start, ls := working[..], DoubleRoundLines();
    for round := 0 to ROUNDS
      invariant working[..] == Run(start, Repeated(ls, round))
    {
      ghost var before := working[..];
      DoubleRound(working);
      OneMoreRound(start, ls, round, before, working[..]);
    }
  }

  /** The last loop of `chachaBlock`. */
  method Serialize(working: array<word>, initial: array<word>) returns (block: bytes)
    requires working.Length == 16 && initial.Length == 16
    ensures block == Sums(working[..], initial[..])
  {
    var buffer := new byte[64](_ => 0);
    for word := 0 to 16
      invariant forall j :: 0 <= j < 4 * word ==> buffer[j] == SumByte(working[..], initial[..], j)
    {
      WriteUInt32LE(buffer, ToUint32(working[word] as int + initial[word]), 4 * word);
    }
    block := buffer[..];
  }

  method InitialState(key: bytes, counter: nat, nonce: bytes) returns (initial: array<word>)
    requires |key| >= 32 && |nonce| >= 12
    ensures fresh(initial) && initial.Length == 16
    ensures initial[..] == Initial(key, counter, nonce)
  {
    initial := new word[16](_ => 0);
    initial[0], initial[1], initial[2], initial[3] := SIGMA[0], SIGMA[1], SIGMA[2], SIGMA[3];
    for word := 0 to 8
      invariant initial[..4] == SIGMA
      invariant forall i :: 0 <= i < word ==> initial[4 + i] == WordAt(key, 4 * i)
    {
      initial[4 + word] := WordAt(key, 4 * word);
    }
    initial[12] := ToUint32(counter);
    for word := 0 to 3
      invariant initial[..4] == SIGMA && initial[12] == ToUint32(counter)
      invariant forall i :: 0 <= i < 8 ==> initial[4 + i] == WordAt(key, 4 * i)
      invariant forall i :: 0 <= i < word ==> initial[13 + i] == WordAt(nonce, 4 * i)
    {
      initial[13 + word] := WordAt(nonce, 4 * word);
    }
  }

  method WriteUInt32LE(buffer: array<byte>, value: word, at: nat)
    requires at + 4 <= buffer.Length
    modifies buffer
    ensures forall j :: 0 <= j < buffer.Length ==>
              buffer[j] == if at <= j < at + 4 then LittleEndianBytes(value, 4)[j - at] else old(buffer[j])
  {
    var written := LittleEndianBytes(value, 4);
    buffer[at], buffer[at + 1], buffer[at + 2], buffer[at + 3] := written[0], written[1], written[2], written[3];
  }

  // ----------------------------------------------------------------------- stream

  function XorBytes(x: byte, y: byte): byte {
    assert Pow(2, 8) == 256;
    XorBound(x, y, 8);
    Xor(x, y)
  }

  function XorAll(a: bytes, b: bytes): (r: bytes)
    requires |a| == |b|
    ensures |r| == |a|
  {
    seq(|a|, i requires 0 <= i < |a| => XorBytes(a[i], b[i]))
  }

  type block = b: bytes | |b| == 64 witness seq(64, _ => 0)

  /** The blocks of one key and nonce, by counter. */
  function Blocks(key: bytes, nonce: bytes): nat -> block
    requires |key| >= 32 && |nonce| >= 12
  {
    counter => Block(key, counter, nonce)
  }

  /** Byte i is byte i mod 64 of the block whose counter is `firstCounter` + i / 64. */
  function KeyStream(blocks: nat -> block, firstCounter: nat, length: nat): (k: bytes)
    ensures |k| == length
  {
    seq(length, i requires 0 <= i < length => blocks(firstCounter + i / 64)[i % 64])
  }

  /** Section 2.4: the input joined with the key stream, byte by byte. */
  function Stream(key: bytes, firstCounter: nat, nonce: bytes, input: bytes): (output: bytes)
    requires |key| >= 32 && |nonce| >= 12
    ensures |output| == |input|
  {
    XorAll(input, KeyStream(Blocks(key, nonce), firstCounter, |input|))
  }

  lemma QuotientWithinBlock(offset: nat, i: nat)
    requires offset % 64 == 0 && offset <= i < offset + 64
    ensures i / 64 == offset / 64 && i % 64 == i - offset
  {
  }

  lemma KeyStreamWithinBlock(blocks: nat -> block, firstCounter: nat, length: nat, offset: nat)
    requires offset % 64 == 0
    ensures forall i :: offset <= i < offset + 64 && i < length ==>
              KeyStream(blocks, firstCounter, length)[i] == blocks(firstCounter + offset / 64)[i - offset]
  {
    forall i | offset <= i < offset + 64 && i < length
      ensures KeyStream(blocks, firstCounter, length)[i] == blocks(firstCounter + offset / 64)[i - offset]
    {
      QuotientWithinBlock(offset, i);
    }
  }

  /** `chacha20`, for an input of any length. */
  method ChaCha20(key: bytes, firstCounter: nat, nonce: bytes, input: bytes) returns (result: bytes)
    requires |key| >= 32 && |nonce| >= 12
    ensures result == Stream(key, firstCounter, nonce, input)
  {
    var output := new byte[|input|](_ => 0);
    ghost var blocks := Blocks(key, nonce);
    ghost var keyStream := KeyStream(blocks, firstCounter, |input|);
    var offset := 0;
    while offset < |input|
      invariant offset % 64 == 0
      invariant forall i :: 0 <= i < offset && i < |input| ==> output[i] == XorBytes(input[i], keyStream[i])
    {
      var stream := ChaChaBlock(key, firstCounter + offset / 64, nonce);
      assert stream == blocks(firstCounter + offset / 64);
      KeyStreamWithinBlock(blocks, firstCounter, |input|, offset);
      JoinBlock(output, input, stream, offset);
      offset := offset + 64;
    }
    result := output[..];
  }

  /** The inner loop of `chacha20`, over one block or what is left of the input. */
  method JoinBlock(output: array<byte>, input: bytes, stream: bytes, offset: nat)
    requires output.Length == |input| && |stream| == 64 && offset < |input|
    modifies output
    ensures forall i :: 0 <= i < |input| ==>
              output[i] == if offset <= i < offset + 64 then XorBytes(input[i], stream[i - offset]) else old(output[i])
  {
    var end := if offset + 64 < |input| then offset + 64 else |input|;
    for at := offset to end
      invariant forall i :: 0 <= i < |input| ==>
                  output[i] == if offset <= i < at then XorBytes(input[i], stream[i - offset]) else old(output[i])
    {
      output[at] := XorBytes(input[at], stream[at - offset]);
    }
  }

  lemma XorAllTwice(a: bytes, b: bytes)
    requires |a| == |b|
    ensures XorAll(XorAll(a, b), b) == a
  {
    forall i | 0 <= i < |a|
      ensures XorAll(XorAll(a, b), b)[i] == a[i]
    {
      XorCancel(a[i], b[i]);
    }
  }

  /** Applying the stream twice restores the input, whatever its length. */
  lemma StreamTwice(key: bytes, firstCounter: nat, nonce: bytes, input: bytes)
    requires |key| >= 32 && |nonce| >= 12
    ensures Stream(key, firstCounter, nonce, Stream(key, firstCounter, nonce, input)) == input
  {
    XorAllTwice(input, KeyStream(Blocks(key, nonce), firstCounter, |input|));
  }
}
