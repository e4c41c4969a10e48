/**
 Text as the scripts handle it, in UTF-16 code units: what a file keeps of it,
 trimming, collapsing, lines, and files of lines.
 */
module Text {
  import opened Common

  type unit = x: nat | x < 0x1_0000

  type text = seq<unit>

  const BREAK: unit := 0x0A
  const BLANK: unit := 0x20

  // ------------------------------------------------------------------- surrogates

  predicate IsHigh(u: unit) { 0xD800 <= u < 0xDC00 }

  predicate IsLow(u: unit) { 0xDC00 <= u < 0xE000 }

  predicate IsSurrogate(u: unit) { IsHigh(u) || IsLow(u) }

  predicate StartsPair(t: text) { |t| >= 2 && IsHigh(t[0]) && IsLow(t[1]) }

  function UnitsOf(c: char): text {
    var n := c as int;
    if n < 0x1_0000 then [n] else [0xD800 + (n - 0x1_0000) / 0x400, 0xDC00 + (n - 0x1_0000) % 0x400]
  }

  /** The text that a file's characters are read as. */
  function Units(s: string): text {
    if s == [] then [] else UnitsOf(s[0]) + Units(s[1..])
  }

  function Combined(high: unit, low: unit): char
    requires IsHigh(high) && IsLow(low)
  {
    (0x1_0000 + (high - 0xD800) * 0x400 + (low - 0xDC00)) as char
  }

  const REPLACEMENT: char := '\U{FFFD}'

  /** The characters a file keeps of a text: each unpaired surrogate is replaced. */
  function Scalars(t: text): string {
    if t == [] then []
    else if StartsPair(t) then [Combined(t[0], t[1])] + Scalars(t[2..])
    else [if IsSurrogate(t[0]) then REPLACEMENT else t[0] as char] + Scalars(t[1..])
  }

  /** Every surrogate is one of a pair. */
  predicate IsWellFormed(t: text) {
    || t == []
    || (StartsPair(t) && IsWellFormed(t[2..]))
    || (!IsSurrogate(t[0]) && IsWellFormed(t[1..]))
  }

  /** A character beyond the first 2^16 is a pair, which combines to it. */
  lemma PairCombines(c: char)
    requires c as int >= 0x1_0000
    ensures var t := UnitsOf(c);
            |t| == 2 && IsHigh(t[0]) && IsLow(t[1]) && Combined(t[0], t[1]) == c
  {
    var n := c as int - 0x1_0000;
    var q, r := n / 0x400, n % 0x400;
    assert n == q * 0x400 + r;
    assert UnitsOf(c) == [0xD800 + q, 0xDC00 + r];
  }

  lemma ReadsOneBack(c: char, rest: text)
    requires IsWellFormed(rest)
    ensures IsWellFormed(UnitsOf(c) + rest) && Scalars(UnitsOf(c) + rest) == [c] + Scalars(rest)
  {
    var first := UnitsOf(c);
    assert (first + rest)[|first|..] == rest;
    if c as int >= 0x1_0000 {
      PairCombines(c);
    }
  }

  /** A file's characters are read as well-formed text, which is written back as them. */
  lemma {:induction false} ReadTextIsWellFormed(s: string)
    ensures IsWellFormed(Units(s)) && Scalars(Units(s)) == s
  {
    if s != [] {
      ReadTextIsWellFormed(s[1..]);
      ReadsOneBack(s[0], Units(s[1..]));
      assert s == [s[0]] + s[1..];
    }
  }

  lemma {:induction false} WellFormedIsKept(t: text)
    requires IsWellFormed(t)
    ensures Units(Scalars(t)) == t
  {
    if t != [] {
      if StartsPair(t) {
        WellFormedIsKept(t[2..]);
        UnitsAppend([Combined(t[0], t[1])], Scalars(t[2..]));
        assert Units([Combined(t[0], t[1])]) == [t[0], t[1]] + Units([]);
        assert t == [t[0], t[1]] + t[2..];
      } else {
        WellFormedIsKept(t[1..]);
        UnitsAppend([t[0] as char], Scalars(t[1..]));
        assert Units([t[0] as char]) == [t[0]] + Units([]);
        assert t == [t[0]] + t[1..];
      }
    }
  }

  /** A text is read back as it was written exactly when it is well-formed. */
  lemma WellFormedExactly(t: text)
    ensures IsWellFormed(t) <==> Units(Scalars(t)) == t
  {
    ReadTextIsWellFormed(Scalars(t));
    if IsWellFormed(t) {
      WellFormedIsKept(t);
    }
  }

  lemma {:induction false} UnitsAppend(a: string, b: string)
    ensures Units(a + b) == Units(a) + Units(b)
  {
    if a == [] {
      assert a + b == b;
    } else {
      UnitsAppend(a[1..], b);
      assert (a + b)[1..] == a[1..] + b;
      Associates(UnitsOf(a[0]), Units(a[1..]), Units(b));
    }
  }

  /** Text comes apart at a unit that is no surrogate. */
  lemma {:induction false} ScalarsJoin(a: text, n: unit, b: text)
    requires !IsSurrogate(n)
    ensures Scalars(a + [n] + b) == Scalars(a) + [n as char] + Scalars(b)
  {
    var whole := a + [n] + b;
    if a == [] {
      assert whole[1..] == b;
    } else if StartsPair(a) {
      ScalarsJoin(a[2..], n, b);
      assert whole[2..] == a[2..] + [n] + b;
      Associates([Combined(a[0], a[1])], Scalars(a[2..]) + [n as char], Scalars(b));
      Associates([Combined(a[0], a[1])], Scalars(a[2..]), [n as char]);
    } else {
      ScalarsJoin(a[1..], n, b);
      assert whole[1..] == a[1..] + [n] + b;
      var first := if IsSurrogate(a[0]) then REPLACEMENT else a[0] as char;
      Associates([first], Scalars(a[1..]) + [n as char], Scalars(b));
      Associates([first], Scalars(a[1..]), [n as char]);
    }
  }

  lemma {:induction false} WellFormedJoin(a: text, n: unit, b: text)
    requires !IsSurrogate(n)
    ensures IsWellFormed(a + [n] + b) <==> IsWellFormed(a) && IsWellFormed(b)
  {
    var whole := a + [n] + b;
    if a == [] {
      assert whole[1..] == b;
    } else if StartsPair(a) {
      WellFormedJoin(a[2..], n, b);
      assert whole[2..] == a[2..] + [n] + b;
    } else {
      WellFormedJoin(a[1..], n, b);
      assert whole[1..] == a[1..] + [n] + b;
    }
  }

  /** A cut keeps text well-formed exactly when it splits no pair. */
  lemma {:induction false} CutWellFormed(t: text, n: nat)
    requires IsWellFormed(t) && 0 < n <= |t|
    ensures IsWellFormed(t[..n]) <==> !IsHigh(t[n - 1])
  {
    var cut := t[..n];
    if StartsPair(t) {
      if n > 2 {
        CutWellFormed(t[2..], n - 2);
        assert cut[2..] == t[2..][..n - 2];
      }
    } else if n > 1 {
      CutWellFormed(t[1..], n - 1);
      assert cut[1..] == t[1..][..n - 1];
    }
  }

  // --------------------------------------------------------------------- trimming

  /** White space and line terminators, as `trim` and `\s` read them. */
  predicate IsSpace(u: unit) {
    || 9 <= u <= 13 || u == 32 || u == 0xA0 || u == 0x1680 || 0x2000 <= u <= 0x200A
    || u == 0x2028 || u == 0x2029 || u == 0x202F || u == 0x205F || u == 0x3000 || u == 0xFEFF
  }

  /** No white space at either end. */
  predicate IsTrimmed(t: text) {
    t == [] || (!IsSpace(t[0]) && !IsSpace(t[|t| - 1]))
  }

  function TrimStart(t: text): text {
    if t != [] && IsSpace(t[0]) then TrimStart(t[1..]) else t
  }

  function TrimEnd(t: text): text {
    if t != [] && IsSpace(t[|t| - 1]) then TrimEnd(t[..|t| - 1]) else t
  }

  function Trim(t: text): text { TrimEnd(TrimStart(t)) }

  lemma {:induction false} TrimStartKeeps(t: text)
    ensures var r := TrimStart(t);
            && |r| <= |t| && r == t[|t| - |r|..]
            && (r == [] || !IsSpace(r[0]))
            && (forall i :: 0 <= i < |t| - |r| ==> IsSpace(t[i]))
            && (IsWellFormed(t) ==> IsWellFormed(r))
  {
    if t != [] && IsSpace(t[0]) {
      TrimStartKeeps(t[1..]);
      var r := TrimStart(t[1..]);
      forall i | 0 <= i < |t| - |r|
        ensures IsSpace(t[i])
      {
        assert i > 0 ==> t[i] == t[1..][i - 1];
      }
    }
  }

  lemma {:induction false} TrimEndKeeps(t: text)
    ensures var r := TrimEnd(t);
            && r <= t
            && (r == [] || !IsSpace(r[|r| - 1]))
            && (forall i :: |r| <= i < |t| ==> IsSpace(t[i]))
            && (IsWellFormed(t) ==> IsWellFormed(r))
  {
    if t != [] && IsSpace(t[|t| - 1]) {
      var init := t[..|t| - 1];
      TrimEndKeeps(init);
      WellFormedJoin(init, t[|t| - 1], []);
      assert init + [t[|t| - 1]] + [] == t;
      var r := TrimEnd(init);
      forall i | |r| <= i < |t|
        ensures IsSpace(t[i])
      {
        assert i < |t| - 1 ==> t[i] == init[i];
      }
    }
  }

  lemma TrimIsTrimmed(t: text)
    ensures IsTrimmed(Trim(t))
  {
    var middle, r := TrimStart(t), Trim(t);
    TrimStartKeeps(t);
    TrimEndKeeps(middle);
    if r != [] {
      assert r[0] == middle[0];
    }
  }

  lemma TrimLeavesExactly(t: text)
    ensures Trim(t) == t <==> IsTrimmed(t)
  {
    TrimIsTrimmed(t);
  }

  lemma TrimIsWithin(t: text)
    ensures forall u :: u in Trim(t) ==> u in t
    ensures IsWellFormed(t) ==> IsWellFormed(Trim(t))
  {
    var middle := TrimStart(t);
    TrimStartKeeps(t);
    TrimEndKeeps(middle);
    forall u | u in middle
      ensures u in t
    {
    }
  }

  lemma TrimsToNothing(t: text)
    ensures Trim(t) == [] <==> forall u :: u in t ==> IsSpace(u)
  {
    var middle, r := TrimStart(t), Trim(t);
    TrimStartKeeps(t);
    TrimEndKeeps(middle);
    if r == [] {
      assert middle == [];
    } else {
      assert r[0] == middle[0] && middle[0] in t;
    }
  }

  /** Trimming yields trimmed text out of what it was given, and leaves exactly trimmed text alone. */
  lemma TrimTrims(t: text)
    ensures IsTrimmed(Trim(t))
    ensures Trim(t) == t <==> IsTrimmed(t)
    ensures forall u :: u in Trim(t) ==> u in t
    ensures Trim(t) == [] <==> forall u :: u in t ==> IsSpace(u)
    ensures IsWellFormed(t) ==> IsWellFormed(Trim(t))
  {
    TrimIsTrimmed(t);
    TrimLeavesExactly(t);
    TrimIsWithin(t);
    TrimsToNothing(t);
  }

  // ------------------------------------------------------------------- collapsing

  /** Every run of white space as one space. */
  function Squeeze(t: text): text {
    if t == [] then []
    else if !IsSpace(t[0]) then [t[0]] + Squeeze(t[1..])
    else if |t| > 1 && IsSpace(t[1]) then Squeeze(t[1..])
    else [BLANK] + Squeeze(t[1..])
  }

  lemma {:induction false} SqueezeKeepsTheEnd(t: text)
    ensures forall u :: u in Squeeze(t) && IsSpace(u) ==> u == BLANK
    ensures t != [] && !IsSpace(t[|t| - 1]) ==> Squeeze(t) != [] && !IsSpace(Squeeze(t)[|Squeeze(t)| - 1])
  {
    if t != [] {
      SqueezeKeepsTheEnd(t[1..]);
      assert |t| > 1 ==> t[1..][|t| - 2] == t[|t| - 1];
    }
  }

  lemma {:induction false} SqueezeWellFormed(t: text)
    requires IsWellFormed(t)
    ensures IsWellFormed(Squeeze(t))
  {
    if t != [] {
      if StartsPair(t) {
        SqueezeWellFormed(t[2..]);
        assert t[1..][1..] == t[2..];
        var rest := Squeeze(t[2..]);
        assert Squeeze(t[1..]) == [t[1]] + rest;
        assert Squeeze(t) == [t[0], t[1]] + rest;
        assert ([t[0], t[1]] + rest)[2..] == rest;
      } else {
        SqueezeWellFormed(t[1..]);
      }
    }
  }

  /** Single blanks inside are the only white space. */
  predicate IsSqueezed(t: text) {
    IsTrimmed(t) && forall i :: 0 <= i < |t| && IsSpace(t[i]) ==> t[i] == BLANK && 0 < i && !IsSpace(t[i - 1])
  }

  lemma {:induction false} SqueezeLeaves(t: text)
    requires forall i :: 0 <= i < |t| && IsSpace(t[i]) ==> t[i] == BLANK && (i > 0 ==> !IsSpace(t[i - 1]))
    ensures Squeeze(t) == t
  {
    if t != [] {
      var rest := t[1..];
      forall i | 0 <= i < |rest| && IsSpace(rest[i])
        ensures rest[i] == BLANK && (i > 0 ==> !IsSpace(rest[i - 1]))
      {
        assert rest[i] == t[i + 1];
      }
      SqueezeLeaves(rest);
      assert |t| > 1 && IsSpace(t[1]) ==> !IsSpace(t[0]);
    }
  }

  const LONGEST := 120

  /** What `collapse` cuts. */
  function Squeezed(t: text): text { Squeeze(Trim(t)) }

  function Collapse(t: text): text {
    var s := Squeezed(t);
    if |s| <= LONGEST then s else s[..LONGEST]
  }

  lemma SqueezedIsLeft(t: text)
    requires IsSqueezed(t)
    ensures Squeezed(t) == t
  {
    TrimTrims(t);
    SqueezeLeaves(t);
  }

  /**
   Collapsed text is on one line; it ends in a space exactly when the cut falls behind
   one, and well-formed text stays so exactly when the cut splits no pair.
   */
  lemma CollapseEnds(t: text)
    ensures BREAK !in Collapse(t)
    ensures Collapse(t) == [] <==> forall u :: u in t ==> IsSpace(u)
    ensures var s, r := Squeezed(t), Collapse(t);
            && (r != [] ==> (IsSpace(r[|r| - 1]) <==> |s| > LONGEST && s[LONGEST - 1] == BLANK))
            && (IsWellFormed(t) ==> (IsWellFormed(r) <==> !(|s| > LONGEST && IsHigh(s[LONGEST - 1]))))
  {
    var trimmed := Trim(t);
    TrimTrims(t);
    SqueezeKeepsTheEnd(trimmed);
    var s, r := Squeezed(t), Collapse(t);
    assert forall u :: u in r ==> u in s;
    if IsWellFormed(t) {
      SqueezeWellFormed(trimmed);
    }
    if |s| > LONGEST {
      assert r[|r| - 1] == s[LONGEST - 1] && s[LONGEST - 1] in s;
      if IsWellFormed(t) {
        CutWellFormed(s, LONGEST);
      }
    }
  }

  // --------------------------------------------------------------- parts and lines

  /** The parts of a text between separators. */
  function Split<T(==)>(s: seq<T>, at: T): (parts: seq<seq<T>>)
    ensures parts != []
  {
    if s == [] then [[]] else InFront(s[0], Split(s[1..], at), at)
  }

  /** Putting an element in front of some parts puts it in front of the first. */
  function InFront<T(==)>(x: T, parts: seq<seq<T>>, at: T): seq<seq<T>>
    requires parts != []
  {
    if x == at then [[]] + parts else [[x] + parts[0]] + parts[1..]
  }

  lemma InFrontAppends<T>(x: T, a: seq<seq<T>>, b: seq<seq<T>>, at: T)
    requires a != []
    ensures InFront(x, a + b, at) == InFront(x, a, at) + b
  {
    assert (a + b)[1..] == a[1..] + b;
  }

  lemma {:induction false} SplitJoins<T>(a: seq<T>, b: seq<T>, at: T)
    ensures Split(a + [at] + b, at) == Split(a, at) + Split(b, at)
  {
    if a == [] {
      assert ([at] + b)[1..] == b;
      assert a + [at] + b == [at] + b;
    } else {
      SplitJoins(a[1..], b, at);
      var whole := a + [at] + b;
      assert whole[1..] == a[1..] + [at] + b;
      InFrontAppends(a[0], Split(a[1..], at), Split(b, at), at);
    }
  }

  lemma {:induction false} OnePart<T>(s: seq<T>, at: T)
    requires at !in s
    ensures Split(s, at) == [s]
  {
    if s != [] {
      OnePart(s[1..], at);
      assert [s[0]] + s[1..] == s;
    }
  }

  /** Lines hold no line break, and those of well-formed text are well-formed. */
  lemma {:induction false} LinesAreApart(t: text)
    ensures forall line :: line in Split(t, BREAK) ==> BREAK !in line
    ensures IsWellFormed(t) ==> forall line :: line in Split(t, BREAK) ==> IsWellFormed(line)
    decreases |t|
  {
    if BREAK in t {
      var i :| 0 <= i < |t| && t[i] == BREAK;
      var a, b := t[..i], t[i + 1..];
      assert t == a + [BREAK] + b;
      SplitJoins(a, b, BREAK);
      WellFormedJoin(a, BREAK, b);
      LinesAreApart(a);
      LinesAreApart(b);
    } else {
      OnePart(t, BREAK);
    }
  }

  /** The trimmed lines that are not empty. */
  function Kept(lines: seq<text>): seq<text> {
    if lines == [] then []
    else
      var line := Trim(lines[0]);
      (if line == [] then [] else [line]) + Kept(lines[1..])
  }

  lemma {:induction false} KeptAppends(a: seq<text>, b: seq<text>)
    ensures Kept(a + b) == Kept(a) + Kept(b)
  {
    if a == [] {
      assert a + b == b;
    } else {
      KeptAppends(a[1..], b);
      assert (a + b)[1..] == a[1..] + b;
      var line := Trim(a[0]);
      Associates(if line == [] then [] else [line], Kept(a[1..]), Kept(b));
    }
  }

  lemma KeepsOne(line: text)
    ensures Kept([line]) == if Trim(line) == [] then [] else [Trim(line)]
  {
    assert [line][1..] == [];
    assert Kept([]) == [];
  }

  /** The items a file holds. */
  function Read(content: string): seq<text> { Kept(Split(Units(content), BREAK)) }

  /** An item that one line of a file can hold. */
  predicate IsLineSafe(item: text) {
    item != [] && IsTrimmed(item) && BREAK !in item && IsWellFormed(item)
  }

  lemma {:induction false} KeptAreSafe(lines: seq<text>)
    requires forall line :: line in lines ==> BREAK !in line && IsWellFormed(line)
    ensures forall item :: item in Kept(lines) ==> IsLineSafe(item)
  {
    if lines != [] {
      TrimTrims(lines[0]);
      KeptAreSafe(lines[1..]);
    }
  }

  /** Only line-safe items are ever read. */
  lemma ReadsOnlySafeItems(content: string)
    ensures forall item :: item in Read(content) ==> IsLineSafe(item)
  {
    ReadTextIsWellFormed(content);
    LinesAreApart(Units(content));
    KeptAreSafe(Split(Units(content), BREAK));
  }

  /** What is read of an item that was written. */
  function ReadBack(item: text): seq<text> { Read(Scalars(item)) }

  /** An item is read back as itself exactly when it is line-safe. */
  lemma ReadsBackExactly(item: text)
    ensures IsLineSafe(item) <==> ReadBack(item) == [item]
  {
    ReadsOnlySafeItems(Scalars(item));
    assert ReadBack(item) == [item] ==> item in ReadBack(item);
    if IsLineSafe(item) {
      WellFormedExactly(item);
      OnePart(item, BREAK);
      TrimTrims(item);
      KeepsOne(item);
      assert Split(Units(Scalars(item)), BREAK) == [item];
    }
  }

  function Join<T>(items: seq<seq<T>>, separator: seq<T>): seq<T> {
    if items == [] then []
    else if |items| == 1 then items[0]
    else items[0] + separator + Join(items[1..], separator)
  }

  /** The text of a file of items, each ended by a line break. */
  function Lines(items: seq<text>): text {
    if items == [] then [] else Join(items, [BREAK]) + [BREAK]
  }

  function FileOf(items: seq<text>): string { Scalars(Lines(items)) }

  function ReadEach(items: seq<text>): seq<text> {
    if items == [] then [] else ReadBack(items[0]) + ReadEach(items[1..])
  }

  lemma LinesGrow(items: seq<text>)
    requires items != []
    ensures Lines(items) == items[0] + [BREAK] + Lines(items[1..])
  {
    if |items| == 1 {
      assert items[1..] == [];
    } else {
      var rest := Join(items[1..], [BREAK]);
      assert items[0] + [BREAK] + rest + [BREAK] == items[0] + [BREAK] + (rest + [BREAK]);
    }
  }

  lemma ReadsJoined(a: string, b: string)
    ensures Read(a + "\n" + b) == Read(a) + Read(b)
  {
    UnitsAppend(a + "\n", b);
    UnitsAppend(a, "\n");
    assert "\n"[1..] == [];
    assert Units("\n") == [BREAK] + Units([]);
    assert Units(a + "\n" + b) == Units(a) + [BREAK] + Units(b);
    SplitJoins(Units(a), Units(b), BREAK);
    KeptAppends(Split(Units(a), BREAK), Split(Units(b), BREAK));
  }

  /** A file gives back what each of its items is read back as. */
  lemma {:induction false} ReadsEachItem(items: seq<text>)
    ensures Read(FileOf(items)) == ReadEach(items)
  {
    if items == [] {
      assert Split(Units(FileOf(items)), BREAK) == [[]];
      KeepsOne([]);
    } else {
      ReadsEachItem(items[1..]);
      LinesGrow(items);
      ScalarsJoin(items[0], BREAK, Lines(items[1..]));
      ReadsJoined(Scalars(items[0]), FileOf(items[1..]));
    }
  }

  lemma {:induction false} ReadEachHas(items: seq<text>, x: text)
    ensures x in ReadEach(items) <==> exists item :: item in items && x in ReadBack(item)
  {
    if items != [] {
      ReadEachHas(items[1..], x);
      if x in ReadEach(items) {
        if x !in ReadBack(items[0]) {
          var item :| item in items[1..] && x in ReadBack(item);
          assert item in items;
        }
      }
      if item :| item in items && x in ReadBack(item) && item != items[0] {
        assert item in items[1..];
      }
    }
  }

  /** Line-safe items come back as they were. */
  lemma {:induction false} ReadsBackSafeItems(items: seq<text>)
    requires forall item :: item in items ==> IsLineSafe(item)
    ensures Read(FileOf(items)) == items
  {
    ReadsEachItem(items);
    if items != [] {
      ReadsBackSafeItems(items[1..]);
      ReadsEachItem(items[1..]);
      ReadsBackExactly(items[0]);
    }
  }
}
