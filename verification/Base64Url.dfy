/**
 Unpadded URL-safe base64 on top of the standard encoding, which is given: how texts
 are turned into standard ones and back.
 */
module Base64Url {
  import opened Common

  /** The standard encoder and decoder. */
  datatype Base64 = Base64(encode: bytes -> string, decode: string -> Option<bytes>)

  function Standard(c: char): char { if c == '-' then '+' else if c == '_' then '/' else c }

  function UrlSafe(c: char): char { if c == '+' then '-' else if c == '/' then '_' else c }

  function StandardText(text: string): string {
    seq(|text|, i requires 0 <= i < |text| => Standard(text[i]))
  }

  function UrlSafeText(text: string): string {
    seq(|text|, i requires 0 <= i < |text| => UrlSafe(text[i]))
  }

  function Padding(n: nat): string { seq((4 - n % 4) % 4, _ => '=') }

  function Unpadded(text: string): string {
    if text == [] then [] else (if text[0] == '=' then [] else [text[0]]) + Unpadded(text[1..])
  }

  /** `init(unpaddedBase64URL:)`. */
  function FromUrl(b: Base64, text: string): Option<bytes> {
    if '=' in text then None else b.decode(StandardText(text) + Padding(|text|))
  }

  /** `unpaddedBase64URL`. */
  function ToUrl(b: Base64, data: bytes): string { Unpadded(UrlSafeText(b.encode(data))) }

  /** A standard text: no character of the URL-safe alphabet, and padding at its end only, up to fours. */
  predicate IsStandard(text: string, n: nat) {
    && n <= |text| && text == text[..n] + Padding(n)
    && forall i :: 0 <= i < n ==> text[i] !in {'-', '_', '='}
  }

  /** What the standard encoding promises. */
  ghost predicate IsBase64(b: Base64) {
    forall data :: b.decode(b.encode(data)) == Some(data) && exists n: nat :: IsStandard(b.encode(data), n)
  }

  lemma {:induction false} UnpaddedAppends(s: string, t: string)
    ensures Unpadded(s + t) == Unpadded(s) + Unpadded(t)
  {
    if s == [] {
      assert s + t == t;
    } else {
      UnpaddedAppends(s[1..], t);
      assert (s + t)[1..] == s[1..] + t;
      Associates(if s[0] == '=' then [] else [s[0]], Unpadded(s[1..]), Unpadded(t));
    }
  }

  lemma {:induction false} UnpaddedKeeps(s: string)
    requires '=' !in s
    ensures Unpadded(s) == s
  {
    if s != [] {
      assert s[0] in s;
      UnpaddedKeeps(s[1..]);
      assert s == [s[0]] + s[1..];
    }
  }

  lemma {:induction false} PaddingGoes(n: nat)
    ensures Unpadded(seq(n, _ => '=')) == []
  {
    if n > 0 {
      PaddingGoes(n - 1);
      assert seq(n, _ => '=')[1..] == seq(n - 1, _ => '=');
    }
  }

  lemma UrlSafeBack(front: string)
    requires forall i :: 0 <= i < |front| ==> front[i] !in {'-', '_', '='}
    ensures StandardText(UrlSafeText(front)) == front && '=' !in UrlSafeText(front)
  {
    forall i | 0 <= i < |front|
      ensures Standard(UrlSafe(front[i])) == front[i] && UrlSafe(front[i]) != '='
    {
    }
  }

  lemma UnpaddedFront(text: string, n: nat)
    requires IsStandard(text, n)
    ensures Unpadded(UrlSafeText(text)) == UrlSafeText(text[..n])
  {
    var front := UrlSafeText(text[..n]);
    UrlSafeBack(text[..n]);
    UnpaddedAppends(front, Padding(n));
    UnpaddedKeeps(front);
    PaddingGoes((4 - n % 4) % 4);
    assert UrlSafeText(text) == front + Padding(n);
  }

  /** What is encoded is decoded again. */
  lemma UrlRoundTrip(b: Base64, data: bytes)
    requires IsBase64(b)
    ensures FromUrl(b, ToUrl(b, data)) == Some(data)
  {
    var text := b.encode(data);
    assert b.decode(text) == Some(data);
    var n: nat :| IsStandard(text, n);
    UnpaddedFront(text, n);
    UrlSafeBack(text[..n]);
  }

  /** Standard and URL-safe characters are read alike, so a key of one has a second text. */
  lemma SecondText(b: Base64, text: string)
    ensures FromUrl(b, StandardText(text)) == FromUrl(b, text)
    ensures StandardText(text) != text <==> '-' in text || '_' in text
  {
    var other := StandardText(text);
    assert StandardText(other) == other;
    if '-' in text || '_' in text {
      var i :| 0 <= i < |text| && (text[i] == '-' || text[i] == '_');
      assert other[i] != text[i];
    }
    assert '=' in other <==> '=' in text by {
      if '=' in text {
        var i :| 0 <= i < |text| && text[i] == '=';
        assert other[i] == '=';
      }
      if '=' in other {
        var i :| 0 <= i < |other| && other[i] == '=';
        assert text[i] == '=';
      }
    }
  }

  /** The standard letter of a URL-safe one. */
  function Twin(c: char): char {
    match c
    case '-' => '+'
    case '_' => '/'
    case _ => c
  }

  /** A text is read letter by letter as its standard twin, padded to a multiple of four; one with padding is refused. */
  lemma ReadsTheTwin(b: Base64, text: string, standard: string)
    requires |text| <= |standard| < |text| + 4 && |standard| % 4 == 0
    requires forall i :: 0 <= i < |standard| ==> standard[i] == if i < |text| then Twin(text[i]) else '='
    ensures FromUrl(b, text) == if '=' in text then None else b.decode(standard)
  {
    assert standard == StandardText(text) + Padding(|text|);
  }

  lemma {:induction false} UnpaddedIs(text: string)
    ensures Unpadded(text) == Only(text, (c: char) => c != '=')
  {
    if text != [] {
      UnpaddedIs(text[1..]);
      OnlyFirst(text[0], text[1..], (c: char) => c != '=');
      assert text == [text[0]] + text[1..];
    }
  }

  /** What is encoded is the standard text without its padding, '-' for '+' and '_' for '/'. */
  lemma WritesTheTwin(b: Base64, data: bytes, safe: string)
    requires |safe| == |b.encode(data)|
    requires forall i :: 0 <= i < |safe| ==>
               var c := b.encode(data)[i]; safe[i] == if c == '+' then '-' else if c == '/' then '_' else c
    ensures ToUrl(b, data) == Only(safe, (c: char) => c != '=')
  {
    assert safe == UrlSafeText(b.encode(data));
    UnpaddedIs(safe);
  }
}
