/** Shared value types: optional and fallible results, bytes, and powers of two. */
module Common {

  datatype Option<+T> = None | Some(value: T)

  datatype Result<+T, +E> = Ok(value: T) | Err(error: E)

  type byte = x: nat | x < 256

  type bytes = seq<byte>

  function Ascii(s: string): (b: bytes)
    ensures |b| == |s|
  {
    seq(|s|, i requires 0 <= i < |s| => s[i] as int % 256)
  }

  const TWO_16: nat := 0x1_0000
  const TWO_32: nat := 0x1_0000_0000
  const TWO_64: nat := 0x1_0000_0000_0000_0000

  ghost predicate Distinct<T(!new)>(s: seq<T>) {
    forall i, j :: 0 <= i < j < |s| ==> s[i] != s[j]
  }

  lemma Associates<T>(a: seq<T>, b: seq<T>, c: seq<T>)
    ensures a + (b + c) == a + b + c
  {
  }

  // Sequences filtered and joined.

  /** The elements that hold, in order. */
  function Only<T>(s: seq<T>, holds: T -> bool): seq<T> {
    if s == [] then [] else Only(s[..|s| - 1], holds) + (if holds(s[|s| - 1]) then [s[|s| - 1]] else [])
  }

  /** The parts, one behind the other. */
  function Concat<T>(parts: seq<seq<T>>): seq<T> {
    if parts == [] then [] else Concat(parts[..|parts| - 1]) + parts[|parts| - 1]
  }

  lemma {:induction false} OnlyFirst<T>(first: T, s: seq<T>, holds: T -> bool)
    ensures Only([first] + s, holds) == (if holds(first) then [first] else []) + Only(s, holds)
  {
    var all := [first] + s;
    if s == [] {
      assert all[..|all| - 1] == [];
    } else {
      OnlyFirst(first, s[..|s| - 1], holds);
      assert all[..|all| - 1] == [first] + s[..|s| - 1];
    }
  }

  lemma {:induction false} ConcatFirst<T>(first: seq<T>, parts: seq<seq<T>>)
    ensures Concat([first] + parts) == first + Concat(parts)
  {
    var all := [first] + parts;
    if parts == [] {
      assert all[..|all| - 1] == [];
    } else {
      ConcatFirst(first, parts[..|parts| - 1]);
      assert all[..|all| - 1] == [first] + parts[..|parts| - 1];
      Associates(first, Concat(parts[..|parts| - 1]), parts[|parts| - 1]);
    }
  }

  lemma {:induction false} OnlyHas<T>(s: seq<T>, holds: T -> bool, x: T)
    ensures x in Only(s, holds) <==> x in s && holds(x)
  {
    if s != [] {
      OnlyHas(s[..|s| - 1], holds, x);
      assert s == s[..|s| - 1] + [s[|s| - 1]];
    }
  }

  lemma {:induction false} ConcatHas<T>(parts: seq<seq<T>>, x: T)
    ensures x in Concat(parts) <==> exists i :: 0 <= i < |parts| && x in parts[i]
  {
    if parts != [] {
      var front, last := parts[..|parts| - 1], parts[|parts| - 1];
      ConcatHas(front, x);
      if x in last {
        assert x in parts[|parts| - 1];
      }
      if i :| 0 <= i < |parts| && x in parts[i] && x !in last {
        assert x in front[i];
      }
    }
  }

  function Pow(b: nat, n: nat): (r: nat)
    ensures b > 0 ==> r > 0
  {
    if n == 0 then 1 else b * Pow(b, n - 1)
  }

  lemma MulAssociates(a: int, b: int, c: int)
    ensures a * (b * c) == a * b * c
  {
  }

  lemma MulDistributes(a: int, b: int, c: int)
    ensures (a + b) * c == a * c + b * c
  {
  }

  lemma MulMonotone(a: int, b: int, c: int)
    requires a <= b && c >= 0
    ensures a * c <= b * c
  {
  }

  lemma {:induction false} PowAdd(b: nat, m: nat, n: nat)
    ensures Pow(b, m + n) == Pow(b, m) * Pow(b, n)
  {
    if m > 0 {
      PowAdd(b, m - 1, n);
      MulAssociates(b, Pow(b, m - 1), Pow(b, n));
    }
  }

  lemma {:induction false} PowMonotone(b: nat, m: nat, n: nat)
    requires b > 0 && m <= n
    ensures Pow(b, m) <= Pow(b, n)
  {
    if m < n {
      PowMonotone(b, m, n - 1);
      MulMonotone(1, b, Pow(b, n - 1));
    }
  }

  // The powers of two the source writes as literals.

  lemma TwoTo32()
    ensures Pow(2, 32) == 0x1_0000_0000
  {
    assert Pow(2, 8) == 256;
    PowAdd(2, 8, 8);
    PowAdd(2, 16, 16);
  }

  lemma TwoTo64()
    ensures Pow(2, 64) == 0x1_0000_0000_0000_0000
  {
    TwoTo32();
    PowAdd(2, 32, 32);
  }

  lemma TwoTo128()
    ensures Pow(2, 128) == 0x1_0000_0000_0000_0000_0000_0000_0000_0000
  {
    TwoTo64();
    PowAdd(2, 64, 64);
  }

  /** Quotient and remainder are determined by their defining equation. */
  lemma DivModUnique(x: int, d: int, q: int, r: int)
    requires d > 0 && x == q * d + r && 0 <= r < d
    ensures x / d == q && x % d == r
  {
    var q', r' := x / d, x % d;
    assert x == q' * d + r';
    if q' < q {
      MulMonotone(q' + 1, q, d);
      MulDistributes(q', 1, d);
      assert false;
    }
    if q < q' {
      MulMonotone(q + 1, q', d);
      MulDistributes(q, 1, d);
      assert false;
    }
  }

  lemma DivideTwice(x: nat, a: nat, b: nat)
    requires a > 0 && b > 0
    ensures a * b > 0 && x / a / b == x / (a * b)
  {
    MulMonotone(1, a, b);
    var q, r := x / a, x % a;
    var s, t := q / b, q % b;
    assert x == s * (a * b) + (t * a + r) by {
      MulAssociates(s, b, a);
      MulDistributes(s * b, t, a);
    }
    MulMonotone(t + 1, b, a);
    MulDistributes(t, 1, a);
    MulMonotone(0, t, a);
    DivModUnique(x, a * b, s, t * a + r);
  }

  lemma ModOfSumWithMultiple(x: int, k: int, m: int)
    requires m > 0
    ensures (x + k * m) % m == x % m
  {
    MulDistributes(x / m, k, m);
    DivModUnique(x + k * m, m, x / m + k, x % m);
  }
}
