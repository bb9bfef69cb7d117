/** The opaque pagination token: unpadded base64url (section 5 of RFC 4648) of
    `<unix nanoseconds>.<id>`. */
module CursorCodec {
  import opened Prelude
  import opened Text
  import opened AuditPaging

  // ---------------------------------------------------------------------
  // Base64url without padding
  // ---------------------------------------------------------------------

  predicate IsByte(b: int) { 0 <= b < 256 }

  ghost predicate AllBytes(bs: seq<int>) { forall i :: 0 <= i < |bs| ==> IsByte(bs[i]) }

  function Symbol(v: int): char
    requires 0 <= v < 64
  {
    if v < 26 then ('A' as int + v) as char
    else if v < 52 then ('a' as int + v - 26) as char
    else if v < 62 then ('0' as int + v - 52) as char
    else if v == 62 then '-' else '_'
  }

  /** The value of a symbol of the alphabet, or -1. */
  function Value(c: char): int {
    if 'A' <= c <= 'Z' then c as int - 'A' as int
    else if 'a' <= c <= 'z' then c as int - 'a' as int + 26
    else if '0' <= c <= '9' then c as int - '0' as int + 52
    else if c == '-' then 62 else if c == '_' then 63 else -1
  }

  lemma SymbolRoundTrip(v: int)
    requires 0 <= v < 64
    ensures Value(Symbol(v)) == v && Symbol(v) != '\r' && Symbol(v) != '\n'
  {
  }

  ghost predicate AllSextets(vs: seq<int>) { forall i :: 0 <= i < |vs| ==> 0 <= vs[i] < 64 }

  /** Bytes regrouped into six-bit values, three bytes at a time. */
  function Sextets(bs: seq<int>): (vs: seq<int>)
    requires AllBytes(bs)
    ensures AllSextets(vs)
    ensures bs != [] ==> vs != []
  {
    if bs == [] then []
    else if |bs| == 1 then [bs[0] / 4, bs[0] % 4 * 16]
    else if |bs| == 2 then [bs[0] / 4, bs[0] % 4 * 16 + bs[1] / 16, bs[1] % 16 * 4]
    else
      [bs[0] / 4, bs[0] % 4 * 16 + bs[1] / 16, bs[1] % 16 * 4 + bs[2] / 64, bs[2] % 64] + Sextets(bs[3..])
  }

  /** Six-bit values regrouped into bytes. A last group of two or three ends the
      text; its spare low bits are not looked at, and one alone is an error. */
  function Octets(vs: seq<int>): (r: Option<seq<int>>)
    requires AllSextets(vs)
    ensures r.Some? ==> AllBytes(r.value)
  {
    if vs == [] then Some([])
    else if |vs| == 1 then None
    else if |vs| == 2 then Some([vs[0] * 4 + vs[1] / 16])
    else if |vs| == 3 then Some([vs[0] * 4 + vs[1] / 16, vs[1] % 16 * 16 + vs[2] / 4])
    else match Octets(vs[4..])
      case None => None
      case Some(rest) =>
        Some([vs[0] * 4 + vs[1] / 16, vs[1] % 16 * 16 + vs[2] / 4, vs[2] % 4 * 64 + vs[3]] + rest)
  }

  function Symbols(vs: seq<int>): string
    requires AllSextets(vs)
  {
    if vs == [] then "" else [Symbol(vs[0])] + Symbols(vs[1..])
  }

  function Values(s: string): (r: Option<seq<int>>)
    ensures r.Some? ==> AllSextets(r.value)
  {
    if s == "" then Some([])
    else if Value(s[0]) < 0 then None
    else match Values(s[1..])
      case None => None
      case Some(rest) => Some([Value(s[0])] + rest)
  }

  function Encode(bs: seq<int>): string
    requires AllBytes(bs)
  {
    Symbols(Sextets(bs))
  }

  function Decode(s: string): (r: Option<seq<int>>)
    ensures r.Some? ==> AllBytes(r.value)
  {
    match Values(DropBreaks(s))
    case None => None
    case Some(vs) => Octets(vs)
  }

  lemma Triple(a: int, b: int, c: int)
    requires IsByte(a) && IsByte(b) && IsByte(c)
    ensures a / 4 * 4 + (a % 4 * 16 + b / 16) / 16 == a
    ensures (a % 4 * 16 + b / 16) % 16 * 16 + (b % 16 * 4 + c / 64) / 4 == b
    ensures (b % 16 * 4 + c / 64) % 4 * 64 + c % 64 == c
  {
  }

  lemma FirstGroup(bs: seq<int>)
    requires AllBytes(bs) && |bs| > 2
    ensures var vs := Sextets(bs);
            && |vs| >= 4 && vs[4..] == Sextets(bs[3..])
            && vs[0] == bs[0] / 4 && vs[1] == bs[0] % 4 * 16 + bs[1] / 16
            && vs[2] == bs[1] % 16 * 4 + bs[2] / 64 && vs[3] == bs[2] % 64
  {
  }

  lemma OctetsOfGroup(vs: seq<int>, a: int, b: int, c: int)
    requires AllSextets(vs) && |vs| >= 4 && Octets(vs[4..]).Some?
    requires a == vs[0] * 4 + vs[1] / 16 && b == vs[1] % 16 * 16 + vs[2] / 4 && c == vs[2] % 4 * 64 + vs[3]
    ensures Octets(vs) == Some([a, b, c] + Octets(vs[4..]).value)
  {
  }

  lemma LastGroup(a: int, b: int)
    requires IsByte(a) && IsByte(b)
    ensures Octets(Sextets([a])) == Some([a])
    ensures Octets(Sextets([a, b])) == Some([a, b])
  {
    assert a % 4 * 16 / 16 == a % 4;
    assert b % 16 * 4 / 4 == b % 16;
    Triple(a, b, 0);
  }

  lemma {:induction false} OctetsOfSextets(bs: seq<int>)
    requires AllBytes(bs)
    ensures Octets(Sextets(bs)) == Some(bs)
  {
    if |bs| == 1 {
      LastGroup(bs[0], 0);
      assert bs == [bs[0]];
    } else if |bs| == 2 {
      LastGroup(bs[0], bs[1]);
      assert bs == [bs[0], bs[1]];
    } else if |bs| > 2 {
      var a, b, c := bs[0], bs[1], bs[2];
      OctetsOfSextets(bs[3..]);
      Triple(a, b, c);
      FirstGroup(bs);
      OctetsOfGroup(Sextets(bs), a, b, c);
      assert bs == [a, b, c] + bs[3..];
    }
  }

  lemma {:induction false} ValuesOfSymbols(vs: seq<int>)
    requires AllSextets(vs)
    ensures DropBreaks(Symbols(vs)) == Symbols(vs)
    ensures Values(Symbols(vs)) == Some(vs)
    ensures vs != [] ==> Symbols(vs) != ""
  {
    if vs != [] {
      var s := Symbols(vs);
      SymbolRoundTrip(vs[0]);
      ValuesOfSymbols(vs[1..]);
      assert s[1..] == Symbols(vs[1..]);
      assert vs == [vs[0]] + vs[1..];
    }
  }

  /** Encoding and decoding bytes gives them back. */
  lemma Base64RoundTrip(bs: seq<int>)
    requires AllBytes(bs)
    ensures Decode(Encode(bs)) == Some(bs)
    ensures bs != [] ==> Encode(bs) != ""
  {
    ValuesOfSymbols(Sextets(bs));
    OctetsOfSextets(bs);
  }

  lemma {:induction false} ValuesIff(s: string)
    ensures Values(s).Some? <==> forall c :: c in s ==> IsBase64(c, true)
    ensures Values(s).Some? ==> |Values(s).value| == |s|
  {
    if s != "" {
      ValuesIff(s[1..]);
      assert s == [s[0]] + s[1..];
      assert IsBase64(s[0], true) <==> Value(s[0]) >= 0;
      hide Value, IsBase64;
      assert s[0] in s;
    }
  }

  lemma {:induction false} OctetsIff(vs: seq<int>)
    requires AllSextets(vs)
    ensures Octets(vs).Some? <==> |vs| % 4 != 1
    ensures Octets(vs).Some? ==> |Octets(vs).value| == |vs| * 3 / 4
  {
    if |vs| > 3 { OctetsIff(vs[4..]); }
  }

  /** Exactly which texts decode, and to how many bytes: line breaks aside, characters of
      the alphabet, as many as whole bytes leave behind. */
  lemma DecodesIff(s: string)
    ensures var t := DropBreaks(s);
            && (Decode(s).Some? <==> (forall c :: c in t ==> IsBase64(c, true)) && |t| % 4 != 1)
            && (Decode(s).Some? ==> |Decode(s).value| == |t| * 3 / 4)
  {
    ValuesIff(DropBreaks(s));
    if Values(DropBreaks(s)).Some? { OctetsIff(Values(DropBreaks(s)).value); }
  }

  /** Examples of section 10 of RFC 4648, without their padding, and the two characters in
      which this alphabet differs from the other. */
  lemma KnownEncodings()
    ensures Encode([0x66]) == "Zg" && Encode([0x66, 0x6f]) == "Zm8" && Encode([0x66, 0x6f, 0x6f]) == "Zm9v"
    ensures Encode([0xfb, 0xff]) == "-_8"
  {
    KnownSextets();
    SymbolsOf2(25, 32);
    SymbolsOf3(25, 38, 60);
    SymbolsOf3(62, 63, 60);
    SymbolsOf3(38, 61, 47);
    assert [25, 38, 61, 47][1..] == [38, 61, 47];
    assert Symbols([25, 38, 61, 47]) == [Symbol(25)] + Symbols([38, 61, 47]);
    hide Sextets;
  }

  lemma KnownSextets()
    ensures Sextets([0x66]) == [25, 32] && Sextets([0x66, 0x6f]) == [25, 38, 60]
    ensures Sextets([0xfb, 0xff]) == [62, 63, 60] && Sextets([0x66, 0x6f, 0x6f]) == [25, 38, 61, 47]
  {
    assert [0x66, 0x6f, 0x6f][3..] == [];
  }

  lemma SymbolsOf2(a: int, b: int)
    requires 0 <= a < 64 && 0 <= b < 64
    ensures Symbols([a, b]) == [Symbol(a), Symbol(b)]
  {
    assert [a, b][1..] == [b] && [b][1..] == [];
    assert Symbols([b]) == [Symbol(b)] + Symbols([]);
  }

  lemma SymbolsOf3(a: int, b: int, c: int)
    requires 0 <= a < 64 && 0 <= b < 64 && 0 <= c < 64
    ensures Symbols([a, b, c]) == [Symbol(a), Symbol(b), Symbol(c)]
  {
    assert [a, b, c][1..] == [b, c];
    SymbolsOf2(b, c);
  }

  // ---------------------------------------------------------------------
  // Bytes and text
  // ---------------------------------------------------------------------

  /** Text whose characters are bytes, as a Go string is. */
  ghost predicate IsByteText(s: string) { forall i :: 0 <= i < |s| ==> s[i] as int < 256 }

  function Bytes(s: string): seq<int> { seq(|s|, i requires 0 <= i < |s| => s[i] as int) }

  function Chars(bs: seq<int>): string
    requires AllBytes(bs)
  {
    seq(|bs|, i requires 0 <= i < |bs| => bs[i] as char)
  }

  // ---------------------------------------------------------------------
  // The cursor
  // ---------------------------------------------------------------------

  const MAX_ID := 64

  /** A position the token format can carry. */
  ghost predicate Encodable(c: Cursor) {
    MIN_INT64 <= c.occurredAt <= MAX_INT64 && 0 < |c.id| <= MAX_ID && IsByteText(c.id)
  }

  function Raw(c: Cursor): string { FormatInt(c.occurredAt) + "." + c.id }

  lemma RawIsBytes(c: Cursor)
    requires IsByteText(c.id)
    ensures AllBytes(Bytes(Raw(c)))
  {
    ParseOfFormat(c.occurredAt);
    var n := FormatInt(c.occurredAt);
    forall i | 0 <= i < |Raw(c)| ensures Raw(c)[i] as int < 256 {
      if i < |n| { assert n[i] in n; }
    }
  }

  function EncodeCursor(c: Cursor): string
    requires IsByteText(c.id)
  {
    RawIsBytes(c);
    Encode(Bytes(Raw(c)))
  }

  function DecodeCursor(token: string): Option<Cursor> {
    match Decode(token)
    case None => None
    case Some(bs) =>
      var (nanos, id, found) := Cut(Chars(bs), '.');
      if !found then None
      else match ParseInt(nanos)
        case None => None
        case Some(n) => if id == "" || |id| > MAX_ID then None else Some(Cursor(n, id))
  }

  /** Every position the format can carry survives the token, ids with dots in
      them included. */
  lemma CursorRoundTrip(c: Cursor)
    requires Encodable(c)
    ensures DecodeCursor(EncodeCursor(c)) == Some(c)
    ensures EncodeCursor(c) != ""
  {
    RawIsBytes(c);
    var bs := Bytes(Raw(c));
    Base64RoundTrip(bs);
    assert Chars(bs) == Raw(c);
    var n := FormatInt(c.occurredAt);
    ParseOfFormat(c.occurredAt);
    CutFirst(n, c.id, '.');
    assert Raw(c) == n + ['.'] + c.id;
  }

  /** A position's own token spells its time in nanoseconds, a dot and its id. */
  lemma TokenSpells(c: Cursor)
    requires Encodable(c)
    ensures Decode(EncodeCursor(c)).Some?
    ensures Chars(Decode(EncodeCursor(c)).value) == FormatInt(c.occurredAt) + "." + c.id
  {
    RawIsBytes(c);
    Base64RoundTrip(Bytes(Raw(c)));
    assert Chars(Bytes(Raw(c))) == Raw(c);
  }

  /** Different positions have different tokens. */
  lemma TokensAreInjective(a: Cursor, b: Cursor)
    requires Encodable(a) && Encodable(b) && EncodeCursor(a) == EncodeCursor(b)
    ensures a == b
  {
    CursorRoundTrip(a);
    CursorRoundTrip(b);
  }

  /** Whatever a client sends, a token that decodes decodes to a position the
      format can carry, and encoding that position again is a fixed point. */
  lemma DecodedIsEncodable(token: string)
    requires DecodeCursor(token).Some?
    ensures var c := DecodeCursor(token).value;
            && Encodable(c) && DecodeCursor(EncodeCursor(c)) == Some(c)
            && 1 <= |c.id| <= 64 && -0x8000_0000_0000_0000 <= c.occurredAt <= 0x7FFF_FFFF_FFFF_FFFF
  {
    var c := DecodeCursor(token).value;
    var text := Chars(Decode(token).value);
    var (nanos, id, found) := Cut(text, '.');
    assert text == nanos + ['.'] + id;
    forall i | 0 <= i < |id| ensures id[i] as int < 256 {
      assert id[i] == text[|nanos| + 1 + i];
    }
    CursorRoundTrip(c);
  }

  /** Exactly which tokens name a position: those whose bytes, line breaks skipped, are
      a text with the right number before its first dot and the right id after it. The
      number may be written in more than one way. */
  lemma TokensNaming(token: string, c: Cursor)
    requires Encodable(c)
    ensures DecodeCursor(token) == Some(c)
            <==> Decode(token).Some?
                 && exists nanos: string :: '.' !in nanos && ParseInt(nanos) == Some(c.occurredAt)
                                            && Chars(Decode(token).value) == nanos + ['.'] + c.id
  {
    hide ParseInt, Decode;
    if Decode(token).Some? {
      var text := Chars(Decode(token).value);
      if nanos: string :| '.' !in nanos && ParseInt(nanos) == Some(c.occurredAt) && text == nanos + ['.'] + c.id {
        CutFirst(nanos, c.id, '.');
      }
      var (before, after, found) := Cut(text, '.');
      if DecodeCursor(token) == Some(c) {
        assert text == before + ['.'] + c.id;
      }
    }
  }

  /** So decoding is not injective: every position has a token of its own, and the same
      token with a line break in front names the same position. */
  lemma LineBreaksAreSkipped(c: Cursor)
    requires Encodable(c)
    ensures var token := EncodeCursor(c);
            && "\n" + token != token
            && DecodeCursor("\n" + token) == DecodeCursor(token) == Some(c)
  {
    CursorRoundTrip(c);
    hide EncodeCursor;
    var token := EncodeCursor(c);
    assert ("\n" + token)[1..] == token;
    assert |"\n" + token| == |token| + 1;
  }

  // ---------------------------------------------------------------------
  // Paging with tokens
  // ---------------------------------------------------------------------

  datatype TokenPage = TokenPage(items: Rows, next: string)

  /** Serve one request: a token that does not decode is refused. */
  ghost function Serve(t: Rows, q: Query, token: string): Option<TokenPage>
    requires forall e :: e in t ==> IsByteText(e.id)
  {
    if token != "" && DecodeCursor(token).None? then None
    else
      var p := PageOf(t, q.(after := if token == "" then None else DecodeCursor(token)));
      if p.next.None? then Some(TokenPage(p.items, ""))
      else if IsByteText(p.next.value.id) then Some(TokenPage(p.items, EncodeCursor(p.next.value)))
      else None
  }

  ghost predicate AllEncodable(t: Rows) { forall e :: e in t ==> Encodable(Key(e)) }

  lemma NextIsEncodable(t: Rows, q: Query)
    requires UniqueIds(t) && AllEncodable(t)
    ensures PageOf(t, q).next.Some? ==> Encodable(PageOf(t, q).next.value)
  {
    PageFacts(t, q);
    var p := PageOf(t, q);
    if p.next.Some? {
      assert p.items[|p.items| - 1] in p.items;
    }
  }

  /** Asking with the token of a page's last row continues exactly there: the
      tokens carry the positions, so whatever holds of paging by position holds
      of paging by token. */
  lemma TokensCarryPositions(t: Rows, q: Query, after: Option<Cursor>)
    requires UniqueIds(t) && AllEncodable(t)
    requires after.Some? ==> Encodable(after.value)
    ensures var token := if after.None? then "" else EncodeCursor(after.value);
            var p := PageOf(t, q.(after := after));
            && Serve(t, q, token).Some?
            && Serve(t, q, token).value.items == p.items
            && (p.next.None? <==> Serve(t, q, token).value.next == "")
            && (p.next.Some? ==> DecodeCursor(Serve(t, q, token).value.next) == p.next && Encodable(p.next.value))
  {
    var token := if after.None? then "" else EncodeCursor(after.value);
    if after.Some? { CursorRoundTrip(after.value); }
    assert q.(after := if token == "" then None else DecodeCursor(token)) == q.(after := after);
    var p := PageOf(t, q.(after := after));
    NextIsEncodable(t, q.(after := after));
    if p.next.Some? { CursorRoundTrip(p.next.value); }
  }

  function TokenOf(after: Option<Cursor>): string
    requires after.Some? ==> IsByteText(after.value.id)
  {
    match after case None => "" case Some(c) => EncodeCursor(c)
  }

  ghost predicate ByteTables(tables: seq<Rows>) {
    forall t, e :: t in tables && e in t ==> IsByteText(e.id)
  }

  /** What a client holding only tokens receives, request after request. */
  ghost function FollowTokens(tables: seq<Rows>, q: Query, token: string): seq<TokenPage>
    requires ByteTables(tables)
    decreases |tables|
  {
    if tables == [] then []
    else match Serve(tables[0], q, token)
      case None => []
      case Some(p) => if p.next == "" then [p] else [p] + FollowTokens(tables[1..], q, p.next)
  }

  ghost predicate SamePages(a: seq<TokenPage>, b: seq<Page>) {
    && |a| == |b|
    && forall k :: 0 <= k < |a| ==> a[k].items == b[k].items && (a[k].next == "" <==> b[k].next.None?)
  }

  lemma ByteIds(t: Rows)
    requires AllEncodable(t)
    ensures forall e :: e in t ==> IsByteText(e.id)
  {
    forall e | e in t ensures IsByteText(e.id) { assert Encodable(Key(e)); }
  }

  lemma ServedToken(t: Rows, q: Query, after: Option<Cursor>)
    requires UniqueIds(t) && AllEncodable(t) && (after.Some? ==> Encodable(after.value))
    ensures forall e :: e in t ==> IsByteText(e.id)
    ensures var p := PageOf(t, q.(after := after));
            p.next.Some? ==>
              Encodable(p.next.value) && Serve(t, q, TokenOf(after)).Some?
              && Serve(t, q, TokenOf(after)).value.next == TokenOf(p.next) != ""
  {
    ByteIds(t);
    NextIsEncodable(t, q.(after := after));
    hide PageOf, EncodeCursor, DecodeCursor, UniqueIds, AllEncodable;
    var p := PageOf(t, q.(after := after));
    if after.Some? { CursorRoundTrip(after.value); }
    if p.next.Some? { CursorRoundTrip(p.next.value); }
  }

  lemma TokensGoOn(tables: seq<Rows>, q: Query, token: string)
    requires ByteTables(tables) && tables != []
    ensures forall e :: e in tables[0] ==> IsByteText(e.id)
    ensures var p := Serve(tables[0], q, token);
            p.Some? ==>
              FollowTokens(tables, q, token) ==
              [p.value] + if p.value.next == "" then [] else FollowTokens(tables[1..], q, p.value.next)
  {
    assert tables[0] in tables;
  }

  lemma SameMore(x: TokenPage, y: Page, a: seq<TokenPage>, b: seq<Page>)
    requires SamePages(a, b) && x.items == y.items && (x.next == "" <==> y.next.None?)
    ensures SamePages([x] + a, [y] + b)
  {
  }

  /** Over a whole run against changing tables, following tokens is following
      positions: page for page the same rows, ending at the same page. */
  lemma {:induction false} TokensFollowPositions(tables: seq<Rows>, q: Query, after: Option<Cursor>)
    requires AllUnique(tables) && forall t :: t in tables ==> AllEncodable(t)
    requires after.Some? ==> Encodable(after.value)
    ensures ByteTables(tables)
    ensures SamePages(FollowTokens(tables, q, TokenOf(after)), Follow(tables, q.(after := after)))
    decreases |tables|
  {
    TablesAreBytes(tables);
    if tables != [] {
      assert tables[0] in tables;
      var from := q.(after := after);
      var p := PageOf(tables[0], from);
      TokenOfIsToken(after);
      TokensCarryPositions(tables[0], q, after);
      ServedToken(tables[0], q, after);
      TokensGoOn(tables, q, TokenOf(after));
      PagesGoOn(tables, from);
      hide Serve, PageOf, EncodeCursor, DecodeCursor, Encodable, UniqueIds, AllEncodable, TokenOf, Follow,
           FollowTokens, SamePages, ByteTables;
      var served := Serve(tables[0], q, TokenOf(after)).value;
      if p.next.Some? {
        TokensFollowPositions(tables[1..], q, p.next);
        assert from.(after := p.next) == q.(after := p.next);
        SameMore(served, p, FollowTokens(tables[1..], q, TokenOf(p.next)), Follow(tables[1..], q.(after := p.next)));
      } else {
        NoMorePages();
        SameMore(served, p, [], []);
      }
    }
  }

  lemma NoMorePages()
    ensures SamePages([], [])
  {
  }

  lemma TablesAreBytes(tables: seq<Rows>)
    requires forall t :: t in tables ==> AllEncodable(t)
    ensures ByteTables(tables)
  {
    forall t, e | t in tables && e in t ensures IsByteText(e.id) { ByteIds(t); }
  }

  lemma TokenOfIsToken(after: Option<Cursor>)
    requires after.Some? ==> Encodable(after.value)
    ensures TokenOf(after) == if after.None? then "" else EncodeCursor(after.value)
  {
  }

  // ---------------------------------------------------------------------
  // The page-size parameter
  // ---------------------------------------------------------------------

  function ParseLimit(raw: string): Option<int> {
    if raw == "" then Some(DEFAULT_PAGE_SIZE)
    else match ParseInt(Trim(raw))
      case None => None
      case Some(n) => if n < 1 || n > MAX_PAGE_SIZE then None else Some(n)
  }

  /** Out of range is refused, not clamped: what a client asks for in digits is
      what it gets, or nothing. */
  lemma LimitIsRefusedNotClamped(n: int)
    requires MIN_INT64 <= n <= MAX_INT64
    ensures ParseLimit(FormatInt(n)) == if 1 <= n <= MAX_PAGE_SIZE then Some(n) else None
  {
    hide FormatInt, ParseInt, IsSpace;
    ParseOfFormat(n);
    var s := FormatInt(n);
    NumeralIsTrimmed(s);
    TrimTrims(s);
  }

  lemma NumeralIsTrimmed(s: string)
    requires forall c :: c in s ==> IsDigit(c) || c == '-'
    ensures Trimmed(s)
  {
    if s != "" { assert s[0] in s && s[|s| - 1] in s; }
  }
}
