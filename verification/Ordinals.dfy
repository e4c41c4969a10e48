/** Sorting by UTF-16 code units, removing duplicates, and numbering the copies of a key. */
module Ordinals {
  import opened Common
  import opened Numerals
  import opened Text

  // ---------------------------------------------------------------------- sorting

  /** The order `sort` puts text in. */
  predicate AtMost(a: text, b: text) {
    a == [] || (b != [] && (a[0] < b[0] || (a[0] == b[0] && AtMost(a[1..], b[1..]))))
  }

  lemma {:induction false} AtMostIsTotal(a: text, b: text)
    ensures AtMost(a, b) || AtMost(b, a)
    ensures AtMost(a, b) && AtMost(b, a) ==> a == b
  {
    if a != [] && b != [] {
      AtMostIsTotal(a[1..], b[1..]);
      assert a == [a[0]] + a[1..] && b == [b[0]] + b[1..];
    }
  }

  lemma {:induction false} AtMostChains(a: text, b: text, c: text)
    requires AtMost(a, b) && AtMost(b, c)
    ensures AtMost(a, c)
  {
    if a != [] && a[0] == b[0] && b[0] == c[0] {
      AtMostChains(a[1..], b[1..], c[1..]);
    }
  }

  function Insert(x: text, s: seq<text>): seq<text> {
    if s == [] || AtMost(x, s[0]) then [x] + s else [s[0]] + Insert(x, s[1..])
  }

  function Sorted(s: seq<text>): seq<text> {
    if s == [] then [] else Insert(s[0], Sorted(s[1..]))
  }

  /** Each text at most every later one. */
  predicate IsSorted(s: seq<text>) {
    s == [] || ((forall x :: x in s ==> AtMost(s[0], x)) && IsSorted(s[1..]))
  }

  lemma {:induction false} InsertKeeps(x: text, s: seq<text>)
    ensures multiset(Insert(x, s)) == multiset{x} + multiset(s)
    ensures IsSorted(s) ==> IsSorted(Insert(x, s))
  {
    AtMostIsTotal(x, x);
    if s == [] {
    } else if AtMost(x, s[0]) {
      assert ([x] + s)[1..] == s;
      if IsSorted(s) {
        forall y | y in s
          ensures AtMost(x, y)
        {
          AtMostChains(x, s[0], y);
        }
      }
    } else {
      var rest := Insert(x, s[1..]);
      InsertKeeps(x, s[1..]);
      assert s == [s[0]] + s[1..];
      assert ([s[0]] + rest)[1..] == rest;
      AtMostIsTotal(x, s[0]);
      forall y | y in rest
        ensures IsSorted(s) ==> AtMost(s[0], y)
      {
        assert y in multiset(rest);
        assert y == x || y in multiset(s[1..]);
      }
    }
  }

  /** Sorting orders the same texts, copies included. */
  lemma {:induction false} SortedSorts(s: seq<text>)
    ensures IsSorted(Sorted(s)) && multiset(Sorted(s)) == multiset(s)
    ensures |Sorted(s)| == |s|
    ensures forall x :: x in Sorted(s) <==> x in s
  {
    if s != [] {
      var rest := s[1..];
      SortedSorts(rest);
      InsertKeeps(s[0], Sorted(rest));
      assert s == [s[0]] + rest;
    }
    SameTexts(Sorted(s), s);
  }

  lemma SameTexts(a: seq<text>, b: seq<text>)
    requires multiset(a) == multiset(b)
    ensures |a| == |b|
    ensures forall x :: x in a <==> x in b
  {
    assert |a| == |multiset(a)| && |b| == |multiset(b)|;
    forall x
      ensures x in a <==> x in b
    {
      assert x in a <==> x in multiset(a);
      assert x in b <==> x in multiset(b);
    }
  }

  lemma TailCopies(s: seq<text>)
    requires s != []
    ensures multiset(s[1..]) == multiset(s) - multiset{s[0]}
  {
    assert s == [s[0]] + s[1..];
  }

  lemma SameFirst(a: seq<text>, b: seq<text>)
    requires IsSorted(a) && IsSorted(b) && multiset(a) == multiset(b) && a != [] && b != []
    ensures a[0] == b[0]
  {
    SameTexts(a, b);
    assert a[0] in b && b[0] in a;
    AtMostIsTotal(a[0], b[0]);
  }

  /** There is only one order. */
  lemma {:induction false} SortedIsUnique(a: seq<text>, b: seq<text>)
    requires IsSorted(a) && IsSorted(b) && multiset(a) == multiset(b)
    ensures a == b
    decreases |a|
  {
    SameTexts(a, b);
    if a != [] {
      SameFirst(a, b);
      TailCopies(a);
      TailCopies(b);
      SortedIsUnique(a[1..], b[1..]);
      assert a == [a[0]] + a[1..] && b == [b[0]] + b[1..];
    }
  }

  // ------------------------------------------------------------------- duplicates

  /** The first of each text. */
  function Unique(s: seq<text>): seq<text> {
    if s == [] then []
    else
      var rest := Unique(s[..|s| - 1]);
      if s[|s| - 1] in rest then rest else rest + [s[|s| - 1]]
  }

  lemma {:induction false} UniqueKeeps(s: seq<text>)
    ensures forall x :: x in Unique(s) <==> x in s
    ensures forall x :: multiset(Unique(s))[x] == if x in s then 1 else 0
  {
    if s != [] {
      UniqueKeeps(s[..|s| - 1]);
      assert s == s[..|s| - 1] + [s[|s| - 1]];
    }
  }

  /** What is written of some items depends on the set of them only. */
  lemma SameItemsSortAlike(a: seq<text>, b: seq<text>)
    requires forall x :: x in a <==> x in b
    ensures Sorted(Unique(a)) == Sorted(Unique(b))
  {
    UniqueKeeps(a);
    UniqueKeeps(b);
    assert multiset(Unique(a)) == multiset(Unique(b)) by {
      forall x: text
        ensures multiset(Unique(a))[x] == multiset(Unique(b))[x]
      {
        assert x in a <==> x in b;
      }
    }
    SortedSorts(Unique(a));
    SortedSorts(Unique(b));
    SortedIsUnique(Sorted(Unique(a)), Sorted(Unique(b)));
  }

  lemma SortedUniqueKeeps(s: seq<text>)
    ensures forall x :: x in Sorted(Unique(s)) <==> x in s
  {
    UniqueKeeps(s);
    SortedSorts(Unique(s));
  }

  // -------------------------------------------------------------------- numbering

  function Count(key: text, keys: seq<text>): nat { multiset(keys)[key] }

  /** What sets a rank off from its key: a blank and a hash. */
  const HASH: text := [BLANK, 0x23]

  /** The nth copy of a key. */
  function Label(key: text, n: nat): text {
    if n == 1 then key else key + HASH + Units(Show(n, 10))
  }

  /** Each key under its rank among its copies so far. */
  function Numbered(keys: seq<text>): (r: seq<text>)
    ensures |r| == |keys|
  {
    if keys == [] then []
    else
      var key := keys[|keys| - 1];
      Numbered(keys[..|keys| - 1]) + [Label(key, Count(key, keys))]
  }

  function WithOrdinals(keys: seq<text>): seq<text> { Numbered(Sorted(keys)) }

  lemma NumberedNext(keys: seq<text>, i: nat)
    requires i < |keys|
    ensures forall key :: Count(key, keys[..i + 1]) == Count(key, keys[..i]) + (if key == keys[i] then 1 else 0)
    ensures Numbered(keys[..i + 1]) == Numbered(keys[..i]) + [Label(keys[i], Count(keys[i], keys[..i + 1]))]
  {
    assert keys[..i + 1] == keys[..i] + [keys[i]];
    assert keys[..i + 1][..i] == keys[..i];
  }

  /** `withOrdinals`: the ranks seen so far in a map. */
  method NumberCopies(keys: seq<text>) returns (r: seq<text>)
    ensures r == WithOrdinals(keys)
  {
    var sorted := Sorted(keys);
    var seen: map<text, nat> := map[];
    r := [];
    for i := 0 to |sorted|
      invariant forall key :: (if key in seen then seen[key] else 0) == Count(key, sorted[..i])
      invariant r == Numbered(sorted[..i])
    {
      var key := sorted[i];
      var rank := (if key in seen then seen[key] else 0) + 1;
      NumberedNext(sorted, i);
      seen := seen[key := rank];
      r := r + [Label(key, rank)];
    }
    assert sorted[..|sorted|] == sorted;
  }

  lemma {:induction false} NumeralUnits(s: string)
    requires IsNumeral(s, 10)
    ensures forall u :: u in Units(s) ==> 0x30 <= u <= 0x39
  {
    if s != [] {
      assert s[0] in s;
      NumeralUnits(s[1..]);
    }
  }

  /** The units of a rank are decimal digits, and tell it. */
  lemma RankUnits(n: nat)
    ensures Units(Show(n, 10)) != []
    ensures forall u :: u in Units(Show(n, 10)) ==> 0x30 <= u <= 0x39
    ensures IsWellFormed(Units(Show(n, 10)))
  {
    ReadShow(n, 10);
    NumeralUnits(Show(n, 10));
    ReadTextIsWellFormed(Show(n, 10));
  }

  lemma HashEndsTheKey(j: text, x: text, k: text, y: text)
    requires j + HASH + x == k + HASH + y
    ensures |x| < |y| ==> HASH[1] in y
  {
    if |x| < |y| {
      var p := |j| - |k| - 1;
      assert (j + HASH + x)[|j| + 1] == HASH[1];
      assert (k + HASH + y)[|j| + 1] == y[p];
    }
  }

  /** The number behind the last hash is the rank. */
  lemma LabelsTellCopiesApart(j: text, m: nat, k: text, n: nat)
    requires m >= 1 && n >= 1 && Label(j, m) == Label(k, n)
    ensures (m == 1 <==> n == 1) ==> j == k && m == n
    ensures j == k ==> m == n
  {
    if m > 1 && n > 1 {
      var x, y := Units(Show(m, 10)), Units(Show(n, 10));
      var whole := Label(j, m);
      RankUnits(m);
      RankUnits(n);
      assert whole == j + HASH + x && whole == k + HASH + y;
      HashEndsTheKey(j, x, k, y);
      HashEndsTheKey(k, y, j, x);
      assert x == whole[|whole| - |x|..] && y == whole[|whole| - |y|..];
      ReadTextIsWellFormed(Show(m, 10));
      ReadTextIsWellFormed(Show(n, 10));
      ShowInjective(m, n, 10);
      assert j == whole[..|whole| - |x| - 2] && k == whole[..|whole| - |y| - 2];
    }
  }

  function Rank(keys: seq<text>, i: nat): nat
    requires i < |keys|
  {
    Count(keys[i], keys[..i + 1])
  }

  lemma CountGrows(key: text, keys: seq<text>, i: nat, j: nat)
    requires i <= j <= |keys|
    ensures Count(key, keys[..i]) <= Count(key, keys[..j])
  {
    assert keys[..j] == keys[..i] + keys[i..j];
  }

  lemma RankIsPositive(keys: seq<text>, i: nat)
    requires i < |keys|
    ensures 1 <= Rank(keys, i) <= Count(keys[i], keys)
  {
    assert keys[..i + 1] == keys[..i] + [keys[i]];
    CountGrows(keys[i], keys, i + 1, |keys|);
    assert keys[..|keys|] == keys;
  }

  lemma {:induction false} NumberedAt(keys: seq<text>, i: nat)
    requires i < |keys|
    ensures Numbered(keys)[i] == Label(keys[i], Rank(keys, i))
  {
    var init := keys[..|keys| - 1];
    if i < |init| {
      NumberedAt(init, i);
      assert init[..i + 1] == keys[..i + 1];
    } else {
      assert keys[..i + 1] == keys;
    }
  }

  /** Every rank up to the number of copies is taken. */
  lemma {:induction false} RankIsTaken(keys: seq<text>, key: text, n: nat) returns (i: nat)
    requires 1 <= n <= Count(key, keys)
    ensures i < |keys| && keys[i] == key && Rank(keys, i) == n
  {
    var init := keys[..|keys| - 1];
    assert keys == init + [keys[|keys| - 1]];
    if n <= Count(key, init) {
      i := RankIsTaken(init, key, n);
      assert init[..i + 1] == keys[..i + 1];
    } else {
      i := |keys| - 1;
      assert keys[..i + 1] == keys;
    }
  }

  ghost predicate IsCopy(x: text, keys: seq<text>) {
    exists key, n :: 1 <= n <= Count(key, keys) && x == Label(key, n)
  }

  lemma NumberedHas(keys: seq<text>, x: text)
    ensures x in Numbered(keys) <==> IsCopy(x, keys)
  {
    if x in Numbered(keys) {
      var i :| 0 <= i < |keys| && Numbered(keys)[i] == x;
      NumberedAt(keys, i);
      RankIsPositive(keys, i);
    }
    if IsCopy(x, keys) {
      var key, n :| 1 <= n <= Count(key, keys) && x == Label(key, n);
      var i := RankIsTaken(keys, key, n);
      NumberedAt(keys, i);
    }
  }

  lemma CountSorted(key: text, keys: seq<text>)
    ensures Count(key, Sorted(keys)) == Count(key, keys)
  {
    SortedSorts(keys);
  }

  /** A key with c copies comes out under exactly the ranks 1 to c. */
  lemma CopiesAreNumbered(keys: seq<text>, x: text)
    ensures x in WithOrdinals(keys) <==> IsCopy(x, keys)
  {
    SortedSorts(keys);
    NumberedHas(Sorted(keys), x);
    assert IsCopy(x, Sorted(keys)) <==> IsCopy(x, keys) by {
      if IsCopy(x, keys) {
        var key, n :| 1 <= n <= Count(key, keys) && x == Label(key, n);
        CountSorted(key, keys);
      }
      if IsCopy(x, Sorted(keys)) {
        var key, n :| 1 <= n <= Count(key, Sorted(keys)) && x == Label(key, n);
        CountSorted(key, keys);
      }
    }
  }

  /** Fewer copies never bring a new item. */
  lemma FewerCopiesFewerItems(fewer: seq<text>, more: seq<text>, x: text)
    requires multiset(fewer) <= multiset(more) && x in WithOrdinals(fewer)
    ensures x in WithOrdinals(more)
  {
    CopiesAreNumbered(fewer, x);
    CopiesAreNumbered(more, x);
    var key, n :| 1 <= n <= Count(key, fewer) && x == Label(key, n);
    assert n <= Count(key, more);
  }

  /** Some key reads as a further copy of another. */
  ghost predicate Clash(keys: seq<text>) {
    exists key, n :: 2 <= n <= Count(key, keys) && Label(key, n) in keys
  }

  lemma RanksRise(keys: seq<text>, i: nat, j: nat)
    requires i < j < |keys| && keys[i] == keys[j]
    ensures Rank(keys, i) < Rank(keys, j)
  {
    CountGrows(keys[j], keys, i + 1, j);
    assert keys[..j + 1] == keys[..j] + [keys[j]];
  }

  lemma EqualLabelsClash(keys: seq<text>, i: nat, j: nat)
    requires i < |keys| && j < |keys| && i != j && Numbered(keys)[i] == Numbered(keys)[j]
    ensures Clash(keys)
  {
    NumberedAt(keys, i);
    NumberedAt(keys, j);
    RankIsPositive(keys, i);
    RankIsPositive(keys, j);
    var m, n := Rank(keys, i), Rank(keys, j);
    LabelsTellCopiesApart(keys[i], m, keys[j], n);
    if keys[i] == keys[j] {
      RanksRise(keys, if i < j then i else j, if i < j then j else i);
    } else if m == 1 {
      assert Label(keys[j], n) == keys[i];
    } else {
      assert Label(keys[i], m) == keys[j];
    }
  }

  lemma NumberedDistinctly(keys: seq<text>)
    ensures Distinct(Numbered(keys)) <==> !Clash(keys)
  {
    if Clash(keys) {
      var key, n :| 2 <= n <= Count(key, keys) && Label(key, n) in keys;
      var other := Label(key, n);
      assert other in multiset(keys);
      var i := RankIsTaken(keys, key, n);
      var j := RankIsTaken(keys, other, 1);
      NumberedAt(keys, i);
      NumberedAt(keys, j);
      assert |other| > |key|;
      assert Numbered(keys)[i] == Numbered(keys)[j] && i != j;
    } else if !Distinct(Numbered(keys)) {
      var i, j :| 0 <= i < j < |keys| && Numbered(keys)[i] == Numbered(keys)[j];
      EqualLabelsClash(keys, i, j);
    }
  }

  /** The numbered items are pairwise distinct exactly when no key already reads as a copy of another. */
  lemma DistinctExactlyWithoutClash(keys: seq<text>)
    ensures Distinct(WithOrdinals(keys)) <==> !Clash(keys)
  {
    var sorted := Sorted(keys);
    SortedSorts(keys);
    NumberedDistinctly(sorted);
    assert Clash(sorted) <==> Clash(keys) by {
      if Clash(keys) {
        var key, n :| 2 <= n <= Count(key, keys) && Label(key, n) in keys;
        CountSorted(key, keys);
        assert Label(key, n) in sorted;
      }
      if Clash(sorted) {
        var key, n :| 2 <= n <= Count(key, sorted) && Label(key, n) in sorted;
        CountSorted(key, keys);
        assert Label(key, n) in keys;
      }
    }
  }

  /** Without such a clash, no numbered item is gone exactly when no copy is. */
  lemma CopiesGoneItemsGone(fewer: seq<text>, more: seq<text>)
    requires multiset(fewer) <= multiset(more) && !Clash(more)
    ensures (forall x :: x in WithOrdinals(more) ==> x in WithOrdinals(fewer)) <==> multiset(fewer) == multiset(more)
  {
    if forall x :: x in WithOrdinals(more) ==> x in WithOrdinals(fewer) {
      forall key: text
        ensures Count(key, fewer) == Count(key, more)
      {
        if Count(key, more) > 0 {
          LastCopyStays(fewer, more, key);
        }
      }
      assert multiset(fewer) == multiset(more) by {
        forall key: text
          ensures multiset(fewer)[key] == multiset(more)[key]
        {
          assert Count(key, fewer) == Count(key, more);
        }
      }
    } else if multiset(fewer) == multiset(more) {
      forall x | x in WithOrdinals(more)
        ensures x in WithOrdinals(fewer)
      {
        FewerCopiesFewerItems(more, fewer, x);
      }
    }
  }

  lemma MixedLabelsClash(keys: seq<text>, j: text, m: nat, k: text, n: nat)
    requires 1 <= m <= Count(j, keys) && 1 <= n <= Count(k, keys)
    requires Label(j, m) == Label(k, n) && (m == 1) != (n == 1)
    ensures Clash(keys)
  {
    assert j in multiset(keys) && k in multiset(keys);
    if m == 1 {
      assert Label(k, n) in keys;
    } else {
      assert Label(j, m) in keys;
    }
  }

  lemma LastCopyStays(fewer: seq<text>, more: seq<text>, key: text)
    requires multiset(fewer) <= multiset(more) && !Clash(more) && Count(key, more) > 0
    requires forall x :: x in WithOrdinals(more) ==> x in WithOrdinals(fewer)
    ensures Count(key, fewer) == Count(key, more)
  {
    var n := Count(key, more);
    var x := Label(key, n);
    CopiesAreNumbered(more, x);
    CopiesAreNumbered(fewer, x);
    var other, m :| 1 <= m <= Count(other, fewer) && x == Label(other, m);
    assert m <= Count(other, more);
    LabelsTellCopiesApart(key, n, other, m);
    if (n == 1) != (m == 1) {
      MixedLabelsClash(more, key, n, other, m);
    }
  }
}
