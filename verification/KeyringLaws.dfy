/** What the keyring variable means, whatever order and spacing it is written in. */
module KeyringLaws {
  import opened Prelude
  import opened Text
  import opened TextLaws
  import opened KeyringConfig
  import CursorCodec

  // ---------------------------------------------------------------------
  // The order of the entries does not matter
  // ---------------------------------------------------------------------

  lemma BagWithout<T>(b: seq<T>, i: nat)
    requires i < |b|
    ensures multiset(b[..i] + b[i + 1..]) == multiset(b) - multiset{b[i]}
  {
    assert b == b[..i] + [b[i]] + b[i + 1..];
  }

  /** Taking one entry out takes its item out. */
  lemma CollectWithout<T>(b: seq<string>, i: nat, f: string -> Option<T>)
    requires i < |b|
    ensures multiset(Collect(b, f)) == multiset(Collect(b[..i] + b[i + 1..], f)) + multiset(Maybe(f(b[i])))
  {
    hide Maybe, Collect;
    CollectNext(b, i, f);
    assert b == b[..i + 1] + b[i + 1..];
    CollectAppend(b[..i + 1], b[i + 1..], f);
    CollectAppend(b[..i], b[i + 1..], f);
  }

  lemma {:induction false} CollectBag<T>(a: seq<string>, b: seq<string>, f: string -> Option<T>)
    requires multiset(a) == multiset(b)
    ensures multiset(Collect(a, f)) == multiset(Collect(b, f))
  {
    hide Collect, Maybe;
    SameLength(a, b);
    if a != [] {
      var i := WhereElse(a, b);
      var rest := b[..i] + b[i + 1..];
      CollectWithout(b, i, f);
      CollectHead(a, f);
      CollectBag(a[1..], rest, f);
    }
  }

  /** The first entry of a in b, and what is left on either side. */
  lemma WhereElse<T>(a: seq<T>, b: seq<T>) returns (i: nat)
    requires multiset(a) == multiset(b) && a != []
    ensures i < |b| && b[i] == a[0] && multiset(a[1..]) == multiset(b[..i] + b[i + 1..])
  {
    SameElements(a, b);
    assert a[0] in a;
    i :| 0 <= i < |b| && b[i] == a[0];
    TailBag(a);
    BagWithout(b, i);
  }

  lemma CollectHead<T>(a: seq<string>, f: string -> Option<T>)
    requires a != []
    ensures multiset(Collect(a, f)) == multiset(Collect(a[1..], f)) + multiset(Maybe(f(a[0])))
  {
    CollectWithout(a, 0, f);
    assert a[..0] + a[1..] == a[1..];
  }

  lemma DistinctBags<T>(a: seq<T>, b: seq<T>)
    requires multiset(a) == multiset(b)
    ensures Distinct(a) <==> Distinct(b)
  {
    DistinctIffSingleCopies(a);
    DistinctIffSingleCopies(b);
    SameElements(a, b);
  }

  lemma AscendingIsSorted(keys: seq<EncodedKey>)
    requires forall i, j :: 0 <= i < j < |keys| ==> keys[i].version < keys[j].version
    ensures SortedBy(keys, VersionLe) && AntisymmetricOn(keys, VersionLe)
  {
    forall x, y | x in keys && y in keys && VersionLe(x, y) && VersionLe(y, x) ensures x == y {
      var i, j :| 0 <= i < |keys| && 0 <= j < |keys| && keys[i] == x && keys[j] == y;
      assert !(i < j) && !(j < i);
    }
  }

  /** Keys with distinct versions have one sorted arrangement. */
  lemma SortedAlike(a: seq<EncodedKey>, b: seq<EncodedKey>)
    requires multiset(a) == multiset(b)
    requires forall i, j :: 0 <= i < j < |a| ==> a[i].version != a[j].version
    ensures SortBy(a, VersionLe) == SortBy(b, VersionLe)
  {
    hide SortBy, SortedBy, AntisymmetricOn, TotalPreorder;
    var x, y := SortBy(a, VersionLe), SortBy(b, VersionLe);
    SortedKeysAscend(a, x);
    AscendingIsSorted(x);
    VersionLeIsTotal();
    SortIsSorted(b, VersionLe);
    SortedUnique(x, y, VersionLe);
  }

  lemma BagsReadAlike(a: seq<string>, b: seq<string>)
    requires multiset(a) == multiset(b)
    ensures WellFormed(a) <==> WellFormed(b)
    ensures WellFormed(a) ==> SortBy(KeysIn(a), VersionLe) == SortBy(KeysIn(b), VersionLe)
  {
    hide KeyOf, VersionOf, Blank, SortBy, Collect, Distinct;
    CollectBag(a, b, KeyOf);
    CollectBag(a, b, VersionOf);
    SameElements(a, b);
    SameLength(KeysIn(a), KeysIn(b));
    DistinctBags(VersionsIn(a), VersionsIn(b));
    if WellFormed(a) {
      DistinctVersions(a);
      SortedAlike(KeysIn(a), KeysIn(b));
    }
  }

  lemma DistinctVersions(entries: seq<string>)
    requires Distinct(VersionsIn(entries))
    ensures var k := KeysIn(entries); forall i, j :: 0 <= i < j < |k| ==> k[i].version != k[j].version
  {
    hide KeyOf, VersionOf, Collect;
    VersionsOfKeys(entries);
  }

  // ---------------------------------------------------------------------
  // Neither does white space around an entry
  // ---------------------------------------------------------------------

  lemma {:induction false} CollectAlike<T>(a: seq<string>, b: seq<string>, f: string -> Option<T>)
    requires |a| == |b| && forall i :: 0 <= i < |a| ==> f(a[i]) == f(b[i])
    ensures Collect(a, f) == Collect(b, f)
  {
    if a != [] { CollectAlike(a[1..], b[1..], f); }
  }

  lemma AlikeReadsAlike(a: seq<string>, b: seq<string>)
    requires ReadsAlike(a, b)
    ensures KeysIn(a) == KeysIn(b)
    ensures WellFormed(a) <==> WellFormed(b)
  {
    hide Trim, ReadEntry, Collect, Distinct;
    CollectAlike(a, b, KeyOf);
    CollectAlike(a, b, VersionOf);
    if WellFormed(a) {
      forall e | e in b ensures Blank(e) || KeyOf(e).Some? {
        var i :| 0 <= i < |b| && b[i] == e;
        assert a[i] in a;
      }
    }
    if WellFormed(b) {
      forall e | e in a ensures Blank(e) || KeyOf(e).Some? {
        var i :| 0 <= i < |a| && a[i] == e;
        assert b[i] in b;
      }
    }
  }

  /** Trimming the variable first changes no reading of its entries. */
  lemma TrimmedSpecReadsAlike(s: string)
    ensures ReadSpec(Trim(s)) == ReadSpec(s)
    ensures ReadSpec(s).Some? ==> Trim(s) != ""
    ensures Trim(s) == "" ==> Split(s, ',') == [s]
  {
    hide Trim, KeyOf, Collect, SortBy, Distinct;
    SplitTrimmed(s, ',');
    AlikeReadsAlike(Split(Trim(s), ','), Split(s, ','));
    if Trim(s) == "" {
      NothingReadsEmpty();
      OnePiece(s, ',');
    }
  }

  lemma NothingReadsEmpty()
    ensures Split("", ',') == [""]
    ensures KeysIn([""]) == []
  {
    CollectOne("", KeyOf);
    TrimTrims("");
  }

  /** Two settings whose entries are the same up to their order and the white
      space around them configure the same keyring, or fail the same way. */
  lemma OrderAndSpacingDoNotMatter(a: string, b: string, pieces: seq<string>, current: string, legacy: string)
    requires ReadsAlike(Split(a, ','), pieces) && multiset(pieces) == multiset(Split(b, ','))
    ensures ParseKeyring(a, current, legacy) == ParseKeyring(b, current, legacy)
  {
    hide Trim, KeyOf, Collect, SortBy, Distinct, Split, ParseInt, DecodeKey, ChooseCurrent, FormatInt;
    TrimmedSpecReadsAlike(a);
    TrimmedSpecReadsAlike(b);
    AlikeReadsAlike(Split(a, ','), pieces);
    BagsReadAlike(pieces, Split(b, ','));
    SameLength(pieces, Split(b, ','));
    if |pieces| == 1 {
      OnePiece(a, ',');
      OnePiece(b, ',');
      SameElements(pieces, [b]);
      assert pieces[0] in pieces;
    }
  }

  // ---------------------------------------------------------------------
  // Printing and parsing
  // ---------------------------------------------------------------------

  function Spell(k: EncodedKey): string { FormatInt(k.version) + [':'] + k.material }

  function Spellings(keys: seq<EncodedKey>): seq<string> {
    if keys == [] then [] else [Spell(keys[0])] + Spellings(keys[1..])
  }

  function Render(keys: seq<EncodedKey>): string { Join(Spellings(keys), ',') }

  lemma VersionPrints(n: int)
    requires 1 <= n <= MAX_INT64
    ensures var s := FormatInt(n);
            ParseInt(s) == Some(n) && Trimmed(s) && s != "" && ':' !in s && ',' !in s
  {
    hide ParseInt, FormatNat;
    ParseOfFormat(n);
    var s := FormatInt(n);
    assert s[0] in s && s[|s| - 1] in s;
  }

  /** What an entry says, given the text before its first colon and after it. */
  lemma ReadOfParts(v: string, m: string)
    requires ':' !in v
    ensures ParseInt(Trim(v)).Some? && ParseInt(Trim(v)).value >= 1 ==>
              ReadEntry(v + [':'] + m) ==
              if DecodeKey(Trim(m)) then Ok(EncodedKey(ParseInt(Trim(v)).value, Trim(m))) else Err(BadKey)
  {
    hide Cut, Trim, ParseInt, DecodeKey;
    CutFirst(v, m, ':');
  }

  lemma SpellingIsTrimmed(k: EncodedKey)
    requires GoodKey(k)
    ensures Trim(Spell(k)) == Spell(k) && Spell(k) != ""
  {
    hide FormatInt, DecodeKey, ParseInt;
    VersionPrints(k.version);
    assert k.material != "" by { NoKeyIsEmpty(); }
    var s := Spell(k);
    assert s[0] == FormatInt(k.version)[0] && s[|s| - 1] == k.material[|k.material| - 1];
    TrimTrims(s);
  }

  lemma SpellingReads(k: EncodedKey)
    requires GoodKey(k)
    ensures KeyOf(Spell(k)) == Some(k) && VersionOf(Spell(k)) == Some(k.version)
    ensures ',' !in Spell(k)
  {
    hide FormatInt, DecodeKey, ParseInt, Trim, ReadEntry, KeyChar;
    VersionPrints(k.version);
    KeysAreCommaFree(k.material);
    SpellingIsTrimmed(k);
    TrimTrims(FormatInt(k.version));
    TrimTrims(k.material);
    ReadOfParts(FormatInt(k.version), k.material);
  }

  lemma NoKeyIsEmpty()
    ensures !DecodeKey("")
  {
  }

  lemma {:induction false} SpellingsRead(keys: seq<EncodedKey>)
    requires forall k :: k in keys ==> GoodKey(k)
    ensures KeysIn(Spellings(keys)) == keys
    ensures |Spellings(keys)| == |keys|
    ensures forall e :: e in Spellings(keys) ==> KeyOf(e).Some? && ',' !in e
  {
    hide GoodKey, KeyOf, Spell;
    if keys != [] {
      assert keys[0] in keys;
      SpellingReads(keys[0]);
      SpellingsRead(keys[1..]);
      assert keys == [keys[0]] + keys[1..];
      assert Spellings(keys)[1..] == Spellings(keys[1..]);
    }
  }

  /** Printing keys in any order and reading them gives them back sorted. */
  lemma RenderThenRead(keys: seq<EncodedKey>)
    requires keys != [] && forall k :: k in keys ==> GoodKey(k)
    requires forall i, j :: 0 <= i < j < |keys| ==> keys[i].version != keys[j].version
    ensures ReadSpec(Render(keys)) == Some(SortBy(keys, VersionLe))
  {
    hide GoodKey, KeyOf, Spellings, Collect, SortBy, Blank, Split, Join;
    var entries := Spellings(keys);
    SpellingsRead(keys);
    SplitOfJoin(entries, ',');
    VersionsOfKeys(entries);
  }

  lemma SortedAlready(keys: seq<EncodedKey>)
    requires forall i, j :: 0 <= i < j < |keys| ==> keys[i].version < keys[j].version
    ensures SortBy(keys, VersionLe) == keys
  {
    AscendingIsSorted(keys);
    VersionLeIsTotal();
    SortIsSorted(keys, VersionLe);
    SortedUnique(keys, SortBy(keys, VersionLe), VersionLe);
  }

  /** Every good keyring survives being printed and parsed. */
  lemma ConfigRoundTrip(c: Config)
    requires GoodConfig(c)
    ensures ParseKeyring(Render(c.keys), FormatInt(c.current), "") == Ok(c)
  {
    hide GoodKey, KeyOf, Render, Collect, SortBy, Split, Trim, TrimLeft, ParseInt, FormatInt, DecodeKey;
    RenderThenRead(c.keys);
    SortedAlready(c.keys);
    TrimmedSpecReadsAlike(Render(c.keys));
    CurrentPrints(c);
    TrimTrims(FormatInt(c.current));
    TrimTrims("");
  }

  lemma CurrentPrints(c: Config)
    requires GoodConfig(c)
    ensures ParseInt(FormatInt(c.current)) == Some(c.current)
    ensures Trimmed(FormatInt(c.current)) && FormatInt(c.current) != ""
  {
    hide FormatInt, ParseInt, DecodeKey;
    var k :| k in c.keys && k.version == c.current;
    VersionPrints(k.version);
  }

  /** So whatever was configured, its printed form configures it again. */
  lemma PrintedFormIsEquivalent(spec: string, current: string, legacy: string)
    requires ParseKeyring(spec, current, legacy).Ok?
    requires ParseKeyring(spec, current, legacy) != Ok(Unconfigured)
    ensures var c := ParseKeyring(spec, current, legacy).value;
            ParseKeyring(Render(c.keys), FormatInt(c.current), "") == Ok(c)
  {
    hide Trim, GoodConfig, ReadSpec, DecodeKey, ChooseCurrent, Render;
    ParsedIsGood(spec, current, legacy);
    ConfigRoundTrip(ParseKeyring(spec, current, legacy).value);
  }

  // ---------------------------------------------------------------------
  // Keys as bytes
  // ---------------------------------------------------------------------

  /** In the URL-safe alphabet without padding, text is accepted as a key exactly when it
      decodes to 32 bytes. */
  lemma UrlKeysAre32Bytes(s: string)
    requires AllBase64(DropBreaks(s), true)
    ensures DecodeKey(s) <==> CursorCodec.Decode(s).Some? && |CursorCodec.Decode(s).value| == 32
  {
    KeysAre43Characters(s);
    CursorCodec.DecodesIff(s);
    hide DropBreaks, IsBase64, DecodeKey, CursorCodec.Decode;
    var t := DropBreaks(s);
    if |t| == 44 { assert t[43] in t; EqualsIsNoBase64(true); }
    if |t| == 43 { assert t[..43] == t; }
  }

  /** So every 32 bytes have a text that is accepted, and give themselves back from it. */
  lemma EveryKeyCanBeWritten(key: seq<int>)
    requires |key| == 32 && CursorCodec.AllBytes(key)
    ensures var s := CursorCodec.Encode(key); DecodeKey(s) && CursorCodec.Decode(s) == Some(key)
  {
    CursorCodec.Base64RoundTrip(key);
    CursorCodec.DecodesIff(CursorCodec.Encode(key));
    UrlKeysAre32Bytes(CursorCodec.Encode(key));
    hide DecodeKey, CursorCodec.Encode, CursorCodec.Decode;
  }

  // ---------------------------------------------------------------------
  // The single legacy key
  // ---------------------------------------------------------------------

  lemma LegacyTrims(k: string)
    ensures Trim("1:" + k) == "1" + [':'] + TrimRight(k)
  {
    var p := "1:";
    assert p[|p| - 1] == ':' && p[0] == '1' && p == "1" + [':'];
    TrimRightAfter(p, k);
    assert !IsSpace((p + k)[0]);
    hide IsSpace, TrimRight;
    TrimLeftSkips(p + k);
    assert TrimLeft(p + k) == p + k;
  }

  lemma LegacyEntry(k: string)
    ensures KeyOf("1:" + k) == if DecodeKey(Trim(k)) then Some(EncodedKey(1, Trim(k))) else None
    ensures !Blank("1:" + k)
  {
    hide DecodeKey, ParseInt, Trim, TrimRight, ReadEntry;
    LegacyTrims(k);
    TrimAfterTrimRight(k);
    TrimTrims("1");
    OnePrints();
    ReadOfParts("1", TrimRight(k));
  }

  lemma OnePrints()
    ensures FormatInt(1) == "1" && ParseInt("1") == Some(1)
  {
    ParseOfFormat(1);
  }

  lemma LegacySpec(k: string)
    requires ',' !in k
    ensures ReadSpec("1:" + k) == if DecodeKey(Trim(k)) then Some([EncodedKey(1, Trim(k))]) else None
  {
    hide DecodeKey, Trim, KeyOf;
    var e := "1:" + k;
    LegacyEntry(k);
    assert Split(e, ',') == [e];
    CollectOne(e, KeyOf);
    CollectOne(e, VersionOf);
    assert e in [e];
    SortOfOne(EncodedKey(1, Trim(k)));
  }

  lemma SortOfOne(k: EncodedKey)
    ensures SortBy([k], VersionLe) == [k]
  {
    assert [k][1..] == [];
  }

  /** A legacy key configures what `1:key` configures, except that the keyring
      variable reads a comma as the start of another entry: the two disagree exactly
      when the key holds a comma and the pieces spell out a keyring of their own. */
  lemma LegacyIsVersionOne(k: string, current: string)
    requires Trim(k) != "" && (Trim(current) == "" || Trim(current) == FormatInt(LEGACY_VERSION))
    ensures var legacy := ParseKeyring("", current, k);
            var keyring := ParseKeyring("1:" + k, current, "");
            && (legacy.Ok? ==> keyring == legacy)
            && (',' in k ==> legacy == Err(BadKey))
            && (keyring == legacy <==> ',' !in k || !WellFormed(Split("1:" + k, ',')))
  {
    TrimTrims("");
    TrimTrims(k);
    OnePrints();
    TrimmedSpecReadsAlike("1:" + k);
    LegacyEntry(k);
    hide Trim, DecodeKey, KeyOf, ReadSpec, ParseInt, WellFormed, Split, ChooseCurrent;
    assert Trim("1:" + k) != "";
    ReadSpecIff("1:" + k);
    if ',' in k {
      CommaIsNoKey(k);
      if ReadSpec("1:" + k).Some? {
        ChoiceIsNoBadKey(ReadSpec("1:" + k).value, Trim(current));
      }
    } else {
      LegacySpec(k);
      if DecodeKey(Trim(k)) { CurrentOfOne(EncodedKey(1, Trim(k)), Trim(current)); }
    }
  }

  lemma ReadSpecIff(spec: string)
    ensures ReadSpec(spec).Some? <==> WellFormed(Split(spec, ','))
  {
    hide WellFormed, Split;
  }

  lemma ChoiceIsNoBadKey(keys: seq<EncodedKey>, current: string)
    ensures ChooseCurrent(keys, current) != Err(BadKey)
  {
    hide ParseInt;
  }

  lemma CommaIsNoKey(k: string)
    requires ',' in k
    ensures !DecodeKey(Trim(k))
  {
    hide DecodeKey;
    TrimLeftKeeps(k, ',');
    TrimRightKeeps(TrimLeft(k), ',');
    if DecodeKey(Trim(k)) { KeysAreCommaFree(Trim(k)); }
  }

  lemma CurrentOfOne(k: EncodedKey, current: string)
    requires k.version == 1 && (current == "" || current == FormatInt(LEGACY_VERSION))
    ensures ChooseCurrent([k], current) == Ok(1)
  {
    hide ParseInt;
    OnePrints();
    assert k in [k];
  }

  lemma TwoKeysAreGood(a: string, b: string)
    requires GoodKey(EncodedKey(1, a)) && GoodKey(EncodedKey(2, b))
    ensures GoodConfig(Config([EncodedKey(1, a), EncodedKey(2, b)], 1))
  {
    hide DecodeKey, Trimmed;
    var keys := [EncodedKey(1, a), EncodedKey(2, b)];
    assert keys[0] in keys;
  }

  /** Two keys run together with ",2:" are refused as a legacy key and accepted,
      both of them, as a keyring. */
  lemma LegacyCommaDisagrees(a: string, b: string)
    requires GoodKey(EncodedKey(1, a)) && GoodKey(EncodedKey(2, b))
    ensures var k := a + ",2:" + b;
            && ParseKeyring("", "1", k) == Err(BadKey)
            && ParseKeyring("1:" + k, "1", "") == Ok(Config([EncodedKey(1, a), EncodedKey(2, b)], 1))
  {
    var k := a + ",2:" + b;
    TwoKeysAreGood(a, b);
    TwoSpellings(a, b);
    hide DecodeKey, Trim, ReadSpec, ChooseCurrent, Render, ParseInt, FormatInt, GoodKey, GoodConfig;
    OnePrints();
    ConfigRoundTrip(Config([EncodedKey(1, a), EncodedKey(2, b)], 1));
    assert k[|a|] == ',';
    CommaStays(k);
    TrimTrims("1");
    LegacyIsVersionOne(k, "1");
  }

  lemma CommaStays(k: string)
    requires ',' in k
    ensures Trim(k) != ""
  {
    TrimLeftKeeps(k, ',');
    TrimRightKeeps(TrimLeft(k), ',');
  }

  lemma TwoSpellings(a: string, b: string)
    ensures Render([EncodedKey(1, a), EncodedKey(2, b)]) == "1:" + (a + ",2:" + b)
  {
    var x, y := EncodedKey(1, a), EncodedKey(2, b);
    assert FormatInt(1) == "1" && FormatInt(2) == "2";
    assert [x, y][1..] == [y] && [y][1..] == [];
    assert Spellings([y]) == [Spell(y)] + Spellings([y][1..]);
    assert Spellings([x, y]) == [Spell(x)] + Spellings([x, y][1..]);
    assert Spellings([y]) == [Spell(y)] && Spellings([x, y]) == [Spell(x), Spell(y)];
    assert [Spell(x), Spell(y)][1..] == [Spell(y)];
    assert Spell(x) == "1:" + a && Spell(y) == "2:" + b;
    assert Render([x, y]) == Spell(x) + [','] + Join([Spell(y)], ',');
    assert Spell(x) + [','] + Spell(y) == "1:" + (a + ",2:" + b);
  }
}
