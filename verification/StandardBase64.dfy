/** The encoding of section 4 of RFC 4648: it keeps what is promised of a standard one. */
module StandardBase64 {
  import opened Common
  import Base64Url

  function Letter(n: nat): (c: char)
    requires n < 64
    ensures Value(c) == n && c !in {'-', '_', '='}
  {
    if n < 26 then ('A' as int + n) as char
    else if n < 52 then ('a' as int + n - 26) as char
    else if n < 62 then ('0' as int + n - 52) as char
    else if n == 62 then '+' else '/'
  }

  /** The number of a letter; 64 for a character that is none. */
  function Value(c: char): nat {
    if 'A' <= c <= 'Z' then c as int - 'A' as int
    else if 'a' <= c <= 'z' then c as int - 'a' as int + 26
    else if '0' <= c <= '9' then c as int - '0' as int + 52
    else if c == '+' then 62 else if c == '/' then 63 else 64
  }

  /** The letters of one to three bytes, unpadded. */
  function Letters(b: bytes): (s: string)
    requires 1 <= |b| <= 3
    ensures |s| == |b| + 1
    ensures forall i :: 0 <= i < |s| ==> s[i] !in {'-', '_', '='} && Value(s[i]) < 64
  {
    var first, second := Letter(b[0] / 4), b[0] % 4 * 16;
    if |b| == 1 then [first, Letter(second)]
    else
      var third := b[1] % 16 * 4;
      if |b| == 2 then [first, Letter(second + b[1] / 16), Letter(third)]
      else [first, Letter(second + b[1] / 16), Letter(third + b[2] / 64), Letter(b[2] % 64)]
  }

  function Encode(data: bytes): string {
    if data == [] then []
    else if |data| < 3 then Letters(data) + seq(3 - |data|, _ => '=')
    else Letters(data[..3]) + Encode(data[3..])
  }

  /** The bytes of two to four letters. */
  function Packed(s: string): Option<bytes>
    requires 2 <= |s| <= 4
  {
    if exists i :: 0 <= i < |s| && Value(s[i]) == 64 then None
    else
      var first := (Value(s[0]) * 4 + Value(s[1]) / 16) % 256;
      if |s| == 2 then Some([first])
      else
        var second := (Value(s[1]) * 16 + Value(s[2]) / 4) % 256;
        if |s| == 3 then Some([first, second]) else Some([first, second, (Value(s[2]) * 64 + Value(s[3])) % 256])
  }

  /** Four characters at a time; the last ones may be padded. */
  function Decode(text: string): Option<bytes> {
    if text == [] then Some([])
    else if |text| < 4 then None
    else if text[2..] == "==" then Packed(text[..2])
    else if text[3..] == "=" then Packed(text[..3])
    else
      var first, rest := Packed(text[..4]), Decode(text[4..]);
      if first.None? || rest.None? then None else Some(first.value + rest.value)
  }

  lemma FirstUnpacks(a: byte, n: nat)
    requires n < 16
    ensures (a / 4 * 4 + (a % 4 * 16 + n) / 16) % 256 == a
  {
    var q, r := a / 4, a % 4;
    DivModUnique(r * 16 + n, 16, r, n);
  }

  lemma SecondUnpacks(a: byte, b: byte, n: nat)
    requires n < 4
    ensures ((a % 4 * 16 + b / 16) * 16 + (b % 16 * 4 + n) / 4) % 256 == b
  {
    var r, h, l := a % 4, b / 16, b % 16;
    DivModUnique(l * 4 + n, 4, l, n);
    DivModUnique((r * 16 + h) * 16 + l, 256, r, b);
  }

  lemma ThirdUnpacks(b: byte, c: byte)
    ensures ((b % 16 * 4 + c / 64) * 64 + c % 64) % 256 == c
  {
    DivModUnique((b % 16 * 4 + c / 64) * 64 + c % 64, 256, b % 16, c);
  }

  lemma LettersUnpack(b: bytes)
    requires 1 <= |b| <= 3
    ensures Packed(Letters(b)) == Some(b)
  {
    FirstUnpacks(b[0], if |b| == 1 then 0 else b[1] / 16);
    if |b| == 1 {
      assert b == [b[0]];
    } else {
      SecondUnpacks(b[0], b[1], if |b| == 2 then 0 else b[2] / 64);
      if |b| == 2 {
        assert b == [b[0], b[1]];
      } else {
        ThirdUnpacks(b[1], b[2]);
        assert b == [b[0], b[1], b[2]];
      }
    }
  }

  lemma DecodesPadded(letters: string)
    requires 2 <= |letters| <= 3 && '=' !in letters
    ensures Decode(letters + seq(4 - |letters|, _ => '=')) == Packed(letters)
  {
    var padding := seq(4 - |letters|, _ => '=');
    var text := letters + padding;
    assert text[..|letters|] == letters && text[|letters|..] == padding;
    assert |letters| == 3 ==> text[2] == letters[2] && text[2] in letters;
  }

  lemma DecodesWhole(letters: string, rest: string)
    requires |letters| == 4 && '=' !in letters
    requires Packed(letters).Some? && Decode(rest).Some?
    ensures Decode(letters + rest) == Some(Packed(letters).value + Decode(rest).value)
  {
    var text := letters + rest;
    assert text[..4] == letters && text[4..] == rest;
    assert text[2] in letters && text[3] in letters;
  }

  lemma {:induction false} DecodesTheEncoded(data: bytes)
    ensures Decode(Encode(data)) == Some(data)
  {
    if |data| >= 3 {
      var front, rest := data[..3], data[3..];
      LettersUnpack(front);
      DecodesTheEncoded(rest);
      DecodesWhole(Letters(front), Encode(rest));
      assert data == front + rest;
    } else if data != [] {
      LettersUnpack(data);
      DecodesPadded(Letters(data));
    }
  }

  /** Where the padding starts. */
  function LettersIn(length: nat): nat {
    if length == 0 then 0 else if length < 3 then length + 1 else LettersIn(length - 3) + 4
  }

  lemma LettersFirst(letters: string, rest: string, n: nat)
    requires |letters| == 4 && forall i :: 0 <= i < 4 ==> letters[i] !in {'-', '_', '='}
    requires Base64Url.IsStandard(rest, n)
    ensures Base64Url.IsStandard(letters + rest, n + 4)
  {
    var text := letters + rest;
    assert text[..n + 4] == letters + rest[..n];
    assert (n + 4) % 4 == n % 4;
    Associates(letters, rest[..n], Base64Url.Padding(n));
  }

  lemma PaddedIsStandard(letters: string)
    requires 2 <= |letters| <= 3 && forall i :: 0 <= i < |letters| ==> letters[i] !in {'-', '_', '='}
    ensures Base64Url.IsStandard(letters + seq(4 - |letters|, _ => '='), |letters|)
  {
    var text := letters + seq(4 - |letters|, _ => '=');
    assert text[..|letters|] == letters;
    assert (4 - |letters| % 4) % 4 == 4 - |letters|;
  }

  lemma {:induction false} EncodedIsStandard(data: bytes)
    ensures Base64Url.IsStandard(Encode(data), LettersIn(|data|))
  {
    if |data| >= 3 {
      EncodedIsStandard(data[3..]);
      LettersFirst(Letters(data[..3]), Encode(data[3..]), LettersIn(|data| - 3));
    } else if data != [] {
      PaddedIsStandard(Letters(data));
    }
  }

  lemma StandardIsBase64()
    ensures Base64Url.IsBase64(Base64Url.Base64(Encode, Decode))
  {
    forall data
      ensures Decode(Encode(data)) == Some(data) && exists n: nat :: Base64Url.IsStandard(Encode(data), n)
    {
      DecodesTheEncoded(data);
      EncodedIsStandard(data);
    }
  }
}
