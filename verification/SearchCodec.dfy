/**
 The query strings of the site: how a list of invitations is printed and read back,
 and the links that carry one. Texts are the bytes of their UTF-8 encoding.
 */
module SearchCodec {
  import opened Common
  import Text

  const AMPERSAND: byte := 0x26
  const EQUALS: byte := 0x3D
  const PERCENT: byte := 0x25
  const PLUS: byte := 0x2B
  const QUESTION: byte := 0x3F
  const HASH: byte := 0x23
  const SPACE: byte := 0x20

  // --------------------------------------------------------------------- encoding

  predicate IsAlphanumeric(b: byte) { 0x30 <= b <= 0x39 || 0x41 <= b <= 0x5A || 0x61 <= b <= 0x7A }

  /**
   What is printed as it is: by `encodeURIComponent` (section 19.2.6 of ECMA-262), and
   by the form-urlencoded serializer (section 1.3 of the WHATWG URL Standard).
   */
  predicate IsPlain(b: byte, form: bool) {
    || IsAlphanumeric(b) || b == 0x2D || b == 0x2E || b == 0x5F || b == 0x2A
    || (!form && (b == 0x21 || b == 0x7E || b == 0x27 || b == 0x28 || b == 0x29))
  }

  function HexByte(d: nat): byte
    requires d < 16
  {
    if d < 10 then 0x30 + d else 0x41 + d - 10
  }

  /** The value of a hexadecimal digit of either case, 16 for another byte. */
  function HexValue(b: byte): nat {
    if 0x30 <= b <= 0x39 then b - 0x30
    else if 0x41 <= b <= 0x46 then b - 0x41 + 10
    else if 0x61 <= b <= 0x66 then b - 0x61 + 10
    else 16
  }

  function EncodeByte(b: byte, form: bool): bytes {
    if form && b == SPACE then [PLUS]
    else if IsPlain(b, form) then [b]
    else [PERCENT, HexByte(b / 16), HexByte(b % 16)]
  }

  function Encode(text: bytes, form: bool): bytes {
    if text == [] then [] else EncodeByte(text[0], form) + Encode(text[1..], form)
  }

  function PlusToSpace(s: bytes): bytes {
    seq(|s|, i requires 0 <= i < |s| => if s[i] == PLUS then SPACE else s[i])
  }

  function PercentDecode(s: bytes): bytes {
    if s == [] then []
    else if s[0] == PERCENT && |s| >= 3 && HexValue(s[1]) < 16 && HexValue(s[2]) < 16 then
      [HexValue(s[1]) * 16 + HexValue(s[2])] + PercentDecode(s[3..])
    else [s[0]] + PercentDecode(s[1..])
  }

  function Decode(s: bytes): bytes { PercentDecode(PlusToSpace(s)) }

  /** Encoded text holds none of the bytes that give a query its structure. */
  lemma {:induction false} EncodedIsPlain(text: bytes, form: bool)
    ensures forall b :: b in Encode(text, form) ==> b !in {AMPERSAND, EQUALS, QUESTION, HASH}
  {
    if text != [] {
      EncodedIsPlain(text[1..], form);
    }
  }

  lemma PlusAppends(a: bytes, b: bytes)
    ensures PlusToSpace(a + b) == PlusToSpace(a) + PlusToSpace(b)
  {
  }

  /** One encoded byte is read back whatever follows it. */
  lemma DecodesByte(b: byte, rest: bytes, form: bool)
    ensures PercentDecode(PlusToSpace(EncodeByte(b, form)) + rest) == [b] + PercentDecode(rest)
  {
    var s := PlusToSpace(EncodeByte(b, form)) + rest;
    if (form && b == SPACE) || IsPlain(b, form) {
      assert s[0] == b && s[1..] == rest;
    } else {
      assert s[0] == PERCENT && s[1] == HexByte(b / 16) && s[2] == HexByte(b % 16);
      assert s[3..] == rest;
      assert b / 16 * 16 + b % 16 == b;
    }
  }

  /** What either encoder prints is read back. */
  lemma {:induction false} DecodesTheEncoded(text: bytes, form: bool)
    ensures Decode(Encode(text, form)) == text
  {
    if text != [] {
      var first, rest := EncodeByte(text[0], form), Encode(text[1..], form);
      DecodesTheEncoded(text[1..], form);
      PlusAppends(first, rest);
      DecodesByte(text[0], PlusToSpace(rest), form);
    }
  }

  // ------------------------------------------------------------------------ pairs

  datatype Pair = Pair(name: bytes, value: bytes)

  function NameOf(part: bytes): bytes {
    if part == [] || part[0] == EQUALS then [] else [part[0]] + NameOf(part[1..])
  }

  function ValueOf(part: bytes): bytes {
    if part == [] then [] else if part[0] == EQUALS then part[1..] else ValueOf(part[1..])
  }

  function ReadPair(part: bytes): Pair { Pair(Decode(NameOf(part)), Decode(ValueOf(part))) }

  function ReadParts(parts: seq<bytes>): seq<Pair> {
    if parts == [] then []
    else (if parts[0] == [] then [] else [ReadPair(parts[0])]) + ReadParts(parts[1..])
  }

  function WithoutQuestion(query: bytes): bytes {
    if query != [] && query[0] == QUESTION then query[1..] else query
  }

  /** The pairs of a query (section 5.1 of the WHATWG URL Standard), with or without its question mark. */
  function Pairs(query: bytes): seq<Pair> { ReadParts(Text.Split(WithoutQuestion(query), AMPERSAND)) }

  /** `getAll`. */
  function ValuesOf(pairs: seq<Pair>, name: bytes): seq<bytes> {
    if pairs == [] then []
    else (if pairs[0].name == name then [pairs[0].value] else []) + ValuesOf(pairs[1..], name)
  }

  function PairsBut(pairs: seq<Pair>, name: bytes): seq<Pair> {
    if pairs == [] then []
    else (if pairs[0].name != name then [pairs[0]] else []) + PairsBut(pairs[1..], name)
  }

  function GetAll(query: bytes, name: bytes): seq<bytes> { ValuesOf(Pairs(query), name) }

  function PrintPair(p: Pair, form: bool): bytes { Encode(p.name, form) + [EQUALS] + Encode(p.value, form) }

  function PrintPairs(pairs: seq<Pair>, form: bool): seq<bytes> {
    seq(|pairs|, i requires 0 <= i < |pairs| => PrintPair(pairs[i], form))
  }

  function Print(pairs: seq<Pair>, form: bool): bytes { Text.Join(PrintPairs(pairs, form), [AMPERSAND]) }

  lemma {:induction false} SplitsAtEquals(name: bytes, value: bytes)
    requires EQUALS !in name
    ensures NameOf(name + [EQUALS] + value) == name && ValueOf(name + [EQUALS] + value) == value
  {
    var part := name + [EQUALS] + value;
    if name == [] {
      assert part == [EQUALS] + value;
    } else {
      SplitsAtEquals(name[1..], value);
      assert part[1..] == name[1..] + [EQUALS] + value;
    }
  }

  lemma ReadsPrintedPair(p: Pair, form: bool)
    ensures var part := PrintPair(p, form);
            part != [] && AMPERSAND !in part && HASH !in part && part[0] != QUESTION && ReadPair(part) == p
  {
    EncodedIsPlain(p.name, form);
    EncodedIsPlain(p.value, form);
    SplitsAtEquals(Encode(p.name, form), Encode(p.value, form));
    DecodesTheEncoded(p.name, form);
    DecodesTheEncoded(p.value, form);
    var part := PrintPair(p, form);
    assert part[0] == if p.name == [] then EQUALS else Encode(p.name, form)[0];
  }

  lemma {:induction false} ReadPartsAppends(a: seq<bytes>, b: seq<bytes>)
    ensures ReadParts(a + b) == ReadParts(a) + ReadParts(b)
  {
    if a == [] {
      assert a + b == b;
    } else {
      ReadPartsAppends(a[1..], b);
      assert (a + b)[1..] == a[1..] + b;
      var first := if a[0] == [] then [] else [ReadPair(a[0])];
      Associates(first, ReadParts(a[1..]), ReadParts(b));
    }
  }

  /** Joined parts come apart again where they were joined. */
  lemma {:induction false} SplitsTheJoined(parts: seq<bytes>, at: byte)
    requires parts != [] && forall part :: part in parts ==> at !in part
    ensures Text.Split(Text.Join(parts, [at]), at) == parts
  {
    if |parts| == 1 {
      Text.OnePart(parts[0], at);
    } else {
      var rest := Text.Join(parts[1..], [at]);
      SplitsTheJoined(parts[1..], at);
      Text.SplitJoins(parts[0], rest, at);
      Text.OnePart(parts[0], at);
    }
  }

  lemma {:induction false} ReadsPrintedParts(pairs: seq<Pair>, form: bool)
    ensures ReadParts(PrintPairs(pairs, form)) == pairs
    ensures forall part :: part in PrintPairs(pairs, form) ==> AMPERSAND !in part && HASH !in part
  {
    if pairs != [] {
      var parts := PrintPairs(pairs, form);
      assert parts[0] == PrintPair(pairs[0], form);
      assert parts[1..] == PrintPairs(pairs[1..], form);
      assert parts == [parts[0]] + parts[1..];
      ReadsPrintedPair(pairs[0], form);
      ReadsPrintedParts(pairs[1..], form);
    }
  }

  lemma {:induction false} JoinHas(parts: seq<bytes>, at: byte, b: byte)
    requires b != at && forall part :: part in parts ==> b !in part
    ensures b !in Text.Join(parts, [at])
  {
    if |parts| > 1 {
      JoinHas(parts[1..], at, b);
    }
  }

  /** Pairs printed behind any query are read behind its pairs. */
  lemma ReadsBehind(query: bytes, pairs: seq<Pair>, form: bool)
    requires pairs != [] && query != []
    ensures Pairs(query + [AMPERSAND] + Print(pairs, form)) == Pairs(query) + pairs
  {
    var body, parts, start := Print(pairs, form), PrintPairs(pairs, form), WithoutQuestion(query);
    ReadsPrintedParts(pairs, form);
    SplitsTheJoined(parts, AMPERSAND);
    Text.SplitJoins(start, body, AMPERSAND);
    assert WithoutQuestion(query + [AMPERSAND] + body) == start + [AMPERSAND] + body;
    ReadPartsAppends(Text.Split(start, AMPERSAND), parts);
  }

  /** Printed pairs are read back, in order and with their duplicates, with or without a question mark in front. */
  lemma ReadsThePrinted(pairs: seq<Pair>, form: bool)
    ensures Pairs(Print(pairs, form)) == pairs
    ensures Pairs([QUESTION] + Print(pairs, form)) == pairs
    ensures HASH !in Print(pairs, form)
  {
    var body, parts := Print(pairs, form), PrintPairs(pairs, form);
    ReadsPrintedParts(pairs, form);
    JoinHas(parts, AMPERSAND, HASH);
    assert ([QUESTION] + body)[1..] == body;
    if pairs == [] {
      assert ReadParts([[]]) == ReadParts([[]][1..]);
      assert Text.Split(body, AMPERSAND) == [[]];
    } else {
      SplitsTheJoined(parts, AMPERSAND);
      ReadsPrintedPair(pairs[0], form);
      assert parts[0] == PrintPair(pairs[0], form);
      assert body[0] == parts[0][0];
    }
  }

  // ----------------------------------------------------------------- site searches

  const INVITATION: bytes := Ascii("invitation")

  /** What stands under `invitation` in a search: nothing, texts, or anything else. */
  datatype Value<V> = Absent | Texts(list: seq<bytes>) | Other(value: V)

  datatype Search<V, O> = Search(invitation: Value<V>, others: O)

  /** The router's own printer and parser. */
  datatype Defaults<!V, !O> = Defaults(stringify: Search<V, O> -> bytes, parse: bytes -> Search<V, O>)

  function Invitations(list: seq<bytes>): seq<Pair> {
    seq(|list|, i requires 0 <= i < |list| => Pair(INVITATION, list[i]))
  }

  function InvitationPairs(list: seq<bytes>): seq<bytes> {
    seq(|list|, i requires 0 <= i < |list| => INVITATION + [EQUALS] + Encode(list[i], false))
  }

  function StringifySite<V, O>(search: Search<V, O>, d: Defaults<V, O>): bytes {
    if search.invitation.Texts? && search.invitation.list != [] then
      var invitationPairs := Text.Join(InvitationPairs(search.invitation.list), [AMPERSAND]);
      var othersSearch := d.stringify(search.(invitation := Absent));
      if othersSearch != [] then othersSearch + [AMPERSAND] + invitationPairs else [QUESTION] + invitationPairs
    else d.stringify(search)
  }

  function ParseSite<V, O>(query: bytes, d: Defaults<V, O>): Search<V, O> {
    var search := d.parse(query);
    if search.invitation.Absent? then search else search.(invitation := Texts(GetAll(query, INVITATION)))
  }

  function ValidateJoin<V, O>(search: Search<V, O>): Option<seq<bytes>> {
    if search.invitation.Texts? && search.invitation.list != [] then Some(search.invitation.list) else None
  }

  /** A query of which no reader drops more than one question mark. */
  predicate HasOneQuestion(query: bytes) {
    !(|query| >= 2 && query[0] == QUESTION && query[1] == QUESTION)
  }

  /**
   What the router's printer and parser are relied on for: a search without
   invitations prints no pair of that name and is read back, a query has invitations
   when some pair is so named, and the rest of a search comes from the other pairs.
   Its parser drops a second question mark that `getAll` keeps, so nothing is said of
   queries that start with two.
   */
  ghost predicate AreDefaults<V(!new), O(!new)>(d: Defaults<V, O>) {
    && (forall o :: PrintsOthers(d, o))
    && (forall q :: HasOneQuestion(q) ==> (d.parse(q).invitation.Absent? <==> GetAll(q, INVITATION) == []))
    && (forall p, q :: HasOneQuestion(p) && HasOneQuestion(q)
                       && PairsBut(Pairs(p), INVITATION) == PairsBut(Pairs(q), INVITATION)
                       ==> d.parse(p).others == d.parse(q).others)
  }

  predicate PrintsOthers<V, O(==)>(d: Defaults<V, O>, o: O) {
    var q := d.stringify(Search(Absent, o));
    HasOneQuestion(q) && GetAll(q, INVITATION) == [] && d.parse(q).others == o
  }

  lemma {:induction false} NoneNamed(pairs: seq<Pair>, name: bytes)
    ensures forall p :: p in PairsBut(pairs, name) ==> p.name != name
    ensures (forall p :: p in pairs ==> p.name != name) ==> PairsBut(pairs, name) == pairs && ValuesOf(pairs, name) == []
  {
    if pairs != [] {
      NoneNamed(pairs[1..], name);
      assert pairs == [pairs[0]] + pairs[1..];
    }
  }

  /** Pairs that are no invitations, as a search of their own. */
  type OtherPairs = pairs: seq<Pair> | forall p :: p in pairs ==> p.name != INVITATION

  function OthersIn(query: bytes): OtherPairs {
    NoneNamed(Pairs(query), INVITATION);
    PairsBut(Pairs(query), INVITATION)
  }

  function PlainDefaults(): Defaults<(), OtherPairs> {
    Defaults(
      (s: Search<(), OtherPairs>) => if s.others == [] then [] else [QUESTION] + Print(s.others, true),
      (q: bytes) => Search(if GetAll(q, INVITATION) == [] then Absent else Other(()), OthersIn(q)))
  }

  lemma PlainPrintsOthers(o: OtherPairs)
    ensures PrintsOthers(PlainDefaults(), o)
  {
    NoneNamed(o, INVITATION);
    ReadsThePrinted(o, true);
    var q := PlainDefaults().stringify(Search(Absent, o));
    if o == [] {
      assert q == Print(o, true);
    } else {
      StartsWithoutQuestion(o);
    }
    assert Pairs(q) == o;
  }

  lemma StartsWithoutQuestion(pairs: seq<Pair>)
    requires pairs != []
    ensures HasOneQuestion([QUESTION] + Print(pairs, true))
  {
    var parts := PrintPairs(pairs, true);
    ReadsPrintedPair(pairs[0], true);
    assert parts[0] == PrintPair(pairs[0], true);
    assert Print(pairs, true)[0] == parts[0][0];
  }

  /** A printer and a parser as relied on: pairs printed and read as they stand. */
  lemma PlainDefaultsAreDefaults()
    ensures AreDefaults(PlainDefaults())
  {
    var d := PlainDefaults();
    forall o: OtherPairs
      ensures PrintsOthers(d, o)
    {
      PlainPrintsOthers(o);
    }
    assert forall q :: d.parse(q).invitation.Absent? <==> GetAll(q, INVITATION) == [];
    assert forall q :: d.parse(q).others == PairsBut(Pairs(q), INVITATION);
  }

  lemma {:induction false} ValuesAppend(pairs: seq<Pair>, more: seq<Pair>, name: bytes)
    ensures ValuesOf(pairs + more, name) == ValuesOf(pairs, name) + ValuesOf(more, name)
  {
    if pairs == [] {
      assert pairs + more == more;
    } else {
      ValuesAppend(pairs[1..], more, name);
      assert (pairs + more)[1..] == pairs[1..] + more;
      var first := if pairs[0].name == name then [pairs[0].value] else [];
      Associates(first, ValuesOf(pairs[1..], name), ValuesOf(more, name));
    }
  }

  lemma {:induction false} PairsButAppend(pairs: seq<Pair>, more: seq<Pair>, name: bytes)
    ensures PairsBut(pairs + more, name) == PairsBut(pairs, name) + PairsBut(more, name)
  {
    if pairs == [] {
      assert pairs + more == more;
    } else {
      PairsButAppend(pairs[1..], more, name);
      assert (pairs + more)[1..] == pairs[1..] + more;
      var first := if pairs[0].name != name then [pairs[0]] else [];
      Associates(first, PairsBut(pairs[1..], name), PairsBut(more, name));
    }
  }

  lemma {:induction false} InvitationsAreTheList(list: seq<bytes>)
    ensures ValuesOf(Invitations(list), INVITATION) == list
    ensures PairsBut(Invitations(list), INVITATION) == []
  {
    if list != [] {
      InvitationsAreTheList(list[1..]);
      assert Invitations(list)[1..] == Invitations(list[1..]);
    }
  }

  lemma {:induction false} AlphanumericIsPlain(text: bytes, form: bool)
    requires forall b :: b in text ==> IsPlain(b, form)
    ensures Encode(text, form) == text
  {
    if text != [] {
      assert text[0] in text && !IsPlain(SPACE, form);
      AlphanumericIsPlain(text[1..], form);
    }
  }

  lemma InvitationIsPlain(form: bool)
    ensures Encode(INVITATION, form) == INVITATION
  {
    AlphanumericIsPlain(INVITATION, form);
  }

  lemma PrintsInvitations(list: seq<bytes>)
    ensures Text.Join(InvitationPairs(list), [AMPERSAND]) == Print(Invitations(list), false)
  {
    InvitationIsPlain(false);
    assert InvitationPairs(list) == PrintPairs(Invitations(list), false);
  }

  /**
   The pairs of a printed search: those of the rest of it, then each invitation as it
   stands, in order and with its duplicates.
   */
  lemma SitePairs<V, O>(search: Search<V, O>, d: Defaults<V, O>)
    requires search.invitation.Texts? && search.invitation.list != []
    ensures Pairs(StringifySite(search, d))
            == Pairs(d.stringify(search.(invitation := Absent))) + Invitations(search.invitation.list)
  {
    var list, others := search.invitation.list, d.stringify(search.(invitation := Absent));
    PrintsInvitations(list);
    if others != [] {
      ReadsBehind(others, Invitations(list), false);
    } else {
      ReadsThePrinted(Invitations(list), false);
      ReadsThePrinted([], false);
      assert [] + Invitations(list) == Invitations(list);
    }
  }

  lemma SiteHasOneQuestion<V, O>(search: Search<V, O>, d: Defaults<V, O>)
    requires search.invitation.Texts? && search.invitation.list != []
    requires HasOneQuestion(d.stringify(search.(invitation := Absent)))
    ensures HasOneQuestion(StringifySite(search, d))
  {
    var list := search.invitation.list;
    PrintsInvitations(list);
    var parts := InvitationPairs(list);
    assert parts[0] == INVITATION + [EQUALS] + Encode(list[0], false);
    assert Text.Join(parts, [AMPERSAND])[0] == INVITATION[0];
  }

  /** A search with a list of texts under `invitation` is read back whole. */
  lemma ParseUndoesStringify<V(!new), O(!new)>(search: Search<V, O>, d: Defaults<V, O>)
    requires AreDefaults(d)
    requires search.invitation.Texts? && search.invitation.list != []
    ensures ParseSite(StringifySite(search, d), d) == search
    ensures ValidateJoin(ParseSite(StringifySite(search, d), d)) == Some(search.invitation.list)
  {
    var list, without := search.invitation.list, search.(invitation := Absent);
    var query, others := StringifySite(search, d), d.stringify(without);
    SitePairs(search, d);
    ValuesAppend(Pairs(others), Invitations(list), INVITATION);
    PairsButAppend(Pairs(others), Invitations(list), INVITATION);
    InvitationsAreTheList(list);
    assert without == Search(Absent, search.others);
    assert PrintsOthers(d, search.others);
    SiteHasOneQuestion(search, d);
    assert GetAll(query, INVITATION) == list;
    assert PairsBut(Pairs(query), INVITATION) == PairsBut(Pairs(others), INVITATION);
    assert d.parse(query).others == d.parse(others).others;
  }

  // ------------------------------------------------------------------------- links

  const LONGEST_ID := 128

  predicate IsInvitationId(id: bytes) {
    1 <= |id| <= LONGEST_ID && forall b :: b in id ==> IsAlphanumeric(b) || b == 0x2D || b == 0x5F
  }

  function SingleInvitationOf(list: seq<bytes>): Option<bytes> {
    if |list| == 1 && IsInvitationId(list[0]) then Some(list[0]) else None
  }

  function LinkOf(base: bytes, invitation: bytes): bytes {
    base + [QUESTION] + Print([Pair(INVITATION, invitation)], true)
  }

  const KIROSHI_JOIN := "kiroshi://join"
  const UNIVERSAL_JOIN := "https://kiroshi.app/join"

  function KiroshiLinkOf(invitation: bytes): bytes { LinkOf(Ascii(KIROSHI_JOIN), invitation) }

  function UniversalLinkOf(invitation: bytes): bytes { LinkOf(Ascii(UNIVERSAL_JOIN), invitation) }

  /** What stands before the first of a byte. */
  function UpTo(s: bytes, b: byte): (start: bytes)
    ensures start <= s
  {
    if s == [] || s[0] == b then [] else [s[0]] + UpTo(s[1..], b)
  }

  /** The query of a link, its question mark included. */
  function QueryOf(link: bytes): bytes {
    var whole := UpTo(link, HASH);
    whole[|UpTo(whole, QUESTION)|..]
  }

  lemma {:induction false} UpToStops(s: bytes, rest: bytes, b: byte)
    requires b !in s && (rest == [] || rest[0] == b)
    ensures UpTo(s + rest, b) == s
  {
    if s == [] {
      assert s + rest == rest;
    } else {
      UpToStops(s[1..], rest, b);
      assert (s + rest)[1..] == s[1..] + rest;
    }
  }

  lemma FindsTheQuery(base: bytes, query: bytes)
    requires QUESTION !in base && HASH !in base && HASH !in query
    requires query != [] && query[0] == QUESTION
    ensures QueryOf(base + query) == query
  {
    var link := base + query;
    UpToStops(link, [], HASH);
    assert link + [] == link;
    UpToStops(base, query, QUESTION);
  }

  lemma OnlyInvitation(invitation: bytes)
    ensures ValuesOf([Pair(INVITATION, invitation)], INVITATION) == [invitation]
  {
    InvitationsAreTheList([invitation]);
    assert Invitations([invitation]) == [Pair(INVITATION, invitation)];
  }

  /** Any invitation is read back from its link, whatever it holds. */
  lemma LinkReadsBack(base: bytes, invitation: bytes)
    requires QUESTION !in base && HASH !in base
    ensures Pairs(QueryOf(LinkOf(base, invitation))) == [Pair(INVITATION, invitation)]
    ensures GetAll(QueryOf(LinkOf(base, invitation)), INVITATION) == [invitation]
    ensures HasOneQuestion(QueryOf(LinkOf(base, invitation)))
  {
    var pairs := [Pair(INVITATION, invitation)];
    var printed := Print(pairs, true);
    ReadsThePrinted(pairs, true);
    assert base + [QUESTION] + printed == base + ([QUESTION] + printed);
    FindsTheQuery(base, [QUESTION] + printed);
    StartsWithoutQuestion(pairs);
    OnlyInvitation(invitation);
  }

  lemma PrintsOne(p: Pair)
    ensures Print([p], true) == PrintPair(p, true)
  {
    assert PrintPairs([p], true) == [PrintPair(p, true)];
  }

  /** An invitation the join page accepts is printed as it stands. */
  lemma PrintsTheId(id: bytes)
    requires IsInvitationId(id)
    ensures Print([Pair(INVITATION, id)], true) == INVITATION + [EQUALS] + id
  {
    InvitationIsPlain(true);
    AlphanumericIsPlain(id, true);
    PrintsOne(Pair(INVITATION, id));
  }

  lemma AsciiLacks(s: string, c: char)
    requires c !in s && forall d :: d in s ==> d as int < 128
    requires c as int < 128
    ensures c as int !in Ascii(s)
  {
    var b := Ascii(s);
    forall i | 0 <= i < |b|
      ensures b[i] != c as int
    {
      assert s[i] in s;
    }
  }

  lemma JoinOpens<V(!new), O(!new)>(base: bytes, invitation: bytes, d: Defaults<V, O>)
    requires AreDefaults(d) && QUESTION !in base && HASH !in base
    ensures ValidateJoin(ParseSite(QueryOf(LinkOf(base, invitation)), d)) == Some([invitation])
  {
    LinkReadsBack(base, invitation);
  }

  lemma UniversalIsPlain()
    ensures QUESTION !in Ascii(UNIVERSAL_JOIN) && HASH !in Ascii(UNIVERSAL_JOIN)
  {
    AsciiLacks(UNIVERSAL_JOIN, '?');
    AsciiLacks(UNIVERSAL_JOIN, '#');
  }

  lemma KiroshiIsPlain()
    ensures QUESTION !in Ascii(KIROSHI_JOIN) && HASH !in Ascii(KIROSHI_JOIN)
  {
    AsciiLacks(KIROSHI_JOIN, '?');
    AsciiLacks(KIROSHI_JOIN, '#');
  }

  /** The join page opens either link on the invitation it was made for, exactly when that is an identifier. */
  lemma JoinOpensItsLinks<V(!new), O(!new)>(invitation: bytes, d: Defaults<V, O>)
    requires AreDefaults(d)
    ensures ValidateJoin(ParseSite(QueryOf(UniversalLinkOf(invitation)), d)) == Some([invitation])
    ensures ValidateJoin(ParseSite(QueryOf(KiroshiLinkOf(invitation)), d)) == Some([invitation])
    ensures SingleInvitationOf([invitation]) == if IsInvitationId(invitation) then Some(invitation) else None
  {
    UniversalIsPlain();
    KiroshiIsPlain();
    JoinOpens(Ascii(UNIVERSAL_JOIN), invitation, d);
    JoinOpens(Ascii(KIROSHI_JOIN), invitation, d);
  }

  // --------------------------------------------------------------- the texts themselves

  /** The digits of a byte behind a percent sign. */
  function Digit(d: nat): byte
    requires d < 16
  {
    "0123456789ABCDEF"[d] as int
  }

  /** What one byte is printed as: itself, a plus for a blank in a form, or a percent sign and two upper-case digits. */
  function Printed(b: byte, form: bool): bytes {
    var c := b as char;
    if form && c == ' ' then ['+' as int]
    else if 'A' <= c <= 'Z' || 'a' <= c <= 'z' || '0' <= c <= '9' || c in {'-', '.', '_', '*'} then [b]
    else if !form && c in {'!', '~', '\'', '(', ')'} then [b]
    else ['%' as int, Digit(b / 16), Digit(b % 16)]
  }

  /** A text is printed byte by byte. */
  lemma {:induction false} PrintsBytes(first: bytes, b: byte, form: bool)
    ensures Encode([], form) == []
    ensures Encode(first + [b], form) == Encode(first, form) + Printed(b, form)
    decreases first
  {
    var printed := Printed(b, form);
    PrintsByte(b, form);
    if first == [] {
      assert [] + [b] == [b] && [b][1..] == [] && printed + [] == printed;
    } else {
      PrintsBytes(first[1..], b, form);
      assert (first + [b])[1..] == first[1..] + [b];
      Associates(EncodeByte(first[0], form), Encode(first[1..], form), printed);
    }
  }

  lemma PrintsByte(b: byte, form: bool)
    ensures EncodeByte(b, form) == Printed(b, form)
  {
    DigitIs(b / 16);
    DigitIs(b % 16);
  }

  lemma DigitIs(d: nat)
    requires d < 16
    ensures HexByte(d) == Digit(d)
  {
  }

  /** A byte in two digits of either case. */
  predicate IsEscape(s: bytes, b: byte) {
    && |s| == 3 && s[0] == '%' as int
    && s[1] in {"0123456789ABCDEF"[b / 16] as int, "0123456789abcdef"[b / 16] as int}
    && s[2] in {"0123456789ABCDEF"[b % 16] as int, "0123456789abcdef"[b % 16] as int}
  }

  lemma DigitIsRead(d: nat, c: byte)
    requires d < 16
    ensures HexValue(c) == d <==> c in {"0123456789ABCDEF"[d] as int, "0123456789abcdef"[d] as int}
  {
  }

  /** What a text is read as: an escape as its byte, a plus as a blank, and anything else as it stands. */
  lemma ReadsEscape(s: bytes, b: byte)
    requires |s| >= 3 && IsEscape(s[..3], b)
    ensures Decode(s) == [b] + Decode(s[3..])
  {
    EscapeIs(s[..3], b);
    assert PlusToSpace(s)[3..] == PlusToSpace(s[3..]);
  }

  lemma EscapeIs(s: bytes, b: byte)
    requires |s| == 3
    ensures IsEscape(s, b) <==>
            s[0] == PERCENT && HexValue(s[1]) < 16 && HexValue(s[2]) < 16 && b == HexValue(s[1]) * 16 + HexValue(s[2])
  {
    DigitIsRead(b / 16, s[1]);
    DigitIsRead(b % 16, s[2]);
  }

  lemma ReadsBytes(s: bytes)
    requires s != [] && (|s| >= 3 ==> forall b :: !IsEscape(s[..3], b))
    ensures Decode(s) == [if s[0] == '+' as int then ' ' as int else s[0]] + Decode(s[1..])
  {
    var t := PlusToSpace(s);
    assert t[1..] == PlusToSpace(s[1..]);
    if |s| >= 3 && s[0] == PERCENT && HexValue(s[1]) < 16 && HexValue(s[2]) < 16 {
      EscapeIs(s[..3], HexValue(s[1]) * 16 + HexValue(s[2]));
      assert false;
    }
    NoEscape(t);
  }

  lemma NoEscape(t: bytes)
    requires t != [] && !(t[0] == PERCENT && |t| >= 3 && HexValue(t[1]) < 16 && HexValue(t[2]) < 16)
    ensures PercentDecode(t) == [t[0]] + PercentDecode(t[1..])
  {
  }

  const QUERY: bytes := ['?' as int]

  /** The pair of one part of a query: its name goes up to the first equals sign, its value follows it. */
  lemma ReadsOnePart(name: bytes, value: bytes)
    requires '=' as int !in name && '&' as int !in name && '&' as int !in value
    ensures Pairs(QUERY + (name + ['=' as int] + value)) == [Pair(Decode(name), Decode(value))]
    ensures Pairs(QUERY + name) == if name == [] then [] else [Pair(Decode(name), [])]
  {
    var part := name + ['=' as int] + value;
    SplitsAtEquals(name, value);
    NameAlone(name);
    PartAlone(part);
    PartAlone(name);
  }

  lemma {:induction false} NameAlone(name: bytes)
    requires EQUALS !in name
    ensures NameOf(name) == name && ValueOf(name) == []
  {
    if name != [] {
      NameAlone(name[1..]);
      assert name == [name[0]] + name[1..];
    }
  }

  lemma PartAlone(part: bytes)
    requires AMPERSAND !in part
    ensures Pairs(QUERY + part) == if part == [] then [] else [ReadPair(part)]
  {
    Text.OnePart(part, AMPERSAND);
    assert (QUERY + part)[1..] == part;
    assert ReadParts([part][1..]) == [];
  }

  /** The pairs of a query are those of its parts, one after the other; a question mark in front is no part of it. */
  lemma ReadsEachPart(first: bytes, rest: bytes)
    ensures Pairs(QUERY + (first + ['&' as int] + rest)) == Pairs(QUERY + first) + Pairs(QUERY + rest)
    ensures (rest != [] ==> rest[0] != '?' as int) ==> Pairs(rest) == Pairs(QUERY + rest)
  {
    var query := first + ['&' as int] + rest;
    assert (QUERY + query)[1..] == query && (QUERY + first)[1..] == first && (QUERY + rest)[1..] == rest;
    Text.SplitJoins(first, rest, AMPERSAND);
    ReadPartsAppends(Text.Split(first, AMPERSAND), Text.Split(rest, AMPERSAND));
  }

  /** The values of a name are those of the pairs of that name, in their order. */
  lemma GetsTheValues(query: bytes, first: bytes, name: bytes)
    ensures ValuesOf([], name) == []
    ensures ValuesOf([Pair(name, query)], name) == [query]
    ensures name != first ==> ValuesOf([Pair(first, query)], name) == []
  {
    assert [Pair(name, query)][1..] == [] && [Pair(first, query)][1..] == [];
  }

  /** `invitation=` in front of an invitation as a link, or a search, has it. */
  function Named(invitation: bytes, form: bool): bytes { Ascii("invitation=") + Encode(invitation, form) }

  lemma LabelIs()
    ensures INVITATION + [EQUALS] == Ascii("invitation=")
  {
  }

  /** A search with a list prints its other pairs as the router does, then each invitation behind an ampersand. */
  lemma {:induction false} PrintsTheSite<V, O>(search: Search<V, O>, d: Defaults<V, O>, list: seq<bytes>, last: bytes)
    requires search.invitation == Texts(list + [last])
    ensures var front, others := search.(invitation := Texts(list)), d.stringify(search.(invitation := Absent));
            StringifySite(search, d)
            == if list != [] then StringifySite(front, d) + ['&' as int] + Named(last, false)
               else if others != [] then others + ['&' as int] + Named(last, false)
               else ['?' as int] + Named(last, false)
  {
    LabelIs();
    var pairs, named := InvitationPairs(list), Named(last, false);
    InvitesOneMore(list, last);
    JoinsOneMore(pairs, named);
    if list != [] {
      JoinedBehind(d.stringify(search.(invitation := Absent)), Text.Join(pairs, [AMPERSAND]), named);
    }
  }

  lemma JoinedBehind(others: bytes, joined: bytes, named: bytes)
    ensures others + [AMPERSAND] + (joined + [AMPERSAND] + named) == others + [AMPERSAND] + joined + [AMPERSAND] + named
    ensures [QUESTION] + (joined + [AMPERSAND] + named) == [QUESTION] + joined + [AMPERSAND] + named
  {
  }

  lemma InvitesOneMore(list: seq<bytes>, last: bytes)
    ensures InvitationPairs(list + [last]) == InvitationPairs(list) + [Named(last, false)]
  {
    LabelIs();
  }

  lemma {:induction false} JoinsOneMore(parts: seq<bytes>, last: bytes)
    ensures Text.Join(parts + [last], [AMPERSAND])
         == if parts == [] then last else Text.Join(parts, [AMPERSAND]) + [AMPERSAND] + last
  {
    if parts == [] {
      assert parts + [last] == [last];
    } else if |parts| == 1 {
      assert (parts + [last])[1..] == [last];
    } else {
      JoinsOneMore(parts[1..], last);
      assert (parts + [last])[1..] == parts[1..] + [last];
    }
  }

  /** Any other search prints as the router does; a search is read as the router reads it, its invitations as texts. */
  lemma ReadsTheSite<V, O>(search: Search<V, O>, d: Defaults<V, O>, query: bytes)
    ensures !(search.invitation.Texts? && search.invitation.list != []) ==> StringifySite(search, d) == d.stringify(search)
    ensures ParseSite(query, d)
         == if d.parse(query).invitation.Absent? then d.parse(query)
            else Search(Texts(ValuesOf(Pairs(query), Ascii("invitation"))), d.parse(query).others)
    ensures ValidateJoin(search)
         == if search.invitation.Texts? && search.invitation.list != [] then Some(search.invitation.list) else None
  {
  }

  /** Where a link leads, and the invitation it carries. */
  lemma LinksAre(invitation: bytes)
    ensures KiroshiLinkOf(invitation) == Ascii("kiroshi://join") + ['?' as int] + Named(invitation, true)
    ensures UniversalLinkOf(invitation) == Ascii("https://kiroshi.app/join") + ['?' as int] + Named(invitation, true)
  {
    LabelIs();
    InvitationIsPlain(true);
    PrintsOne(Pair(INVITATION, invitation));
    assert PrintPair(Pair(INVITATION, invitation), true) == Named(invitation, true);
  }

  /** The one invitation a join page takes: up to 128 letters, digits, dashes and underscores. */
  lemma TakesOneInvitation(list: seq<bytes>)
    ensures SingleInvitationOf(list).Some? <==>
            |list| == 1 && 1 <= |list[0]| <= 128
            && forall b :: b in list[0] ==>
                 var c := b as char; 'A' <= c <= 'Z' || 'a' <= c <= 'z' || '0' <= c <= '9' || c == '-' || c == '_'
    ensures SingleInvitationOf(list).Some? ==> SingleInvitationOf(list) == Some(list[0])
  {
  }

  /** The query of a link goes from its first question mark to the first hash. */
  lemma QueriesEndAtTheHash(base: bytes, query: bytes, fragment: bytes)
    requires '?' as int !in base && '#' as int !in base && '#' as int !in query
    requires query != [] ==> query[0] == '?' as int
    ensures QueryOf(base + query + ['#' as int] + fragment) == query
  {
    var whole, hash: bytes := base + query, ['#' as int] + fragment;
    assert base + query + ['#' as int] + fragment == whole + hash;
    UpToStops(whole, hash, HASH);
    UpToStops(base, query, QUESTION);
  }
}
