/** Reading the secret keyring from its three environment variables. */
module KeyringConfig {
  import opened Prelude
  import opened Text
  import Secrets

  datatype EncodedKey = EncodedKey(version: int, material: string)

  datatype Config = Config(keys: seq<EncodedKey>, current: int)

  datatype ConfigError =
    | BothSet
    | CurrentWithoutKeys
    | LegacyIsVersionOne
    | BadKey
    | NoVersionPrefix
    | BadVersion
    | VersionBelowOne
    | DuplicateVersion
    | NoKeys
    | CurrentUnset
    | BadCurrent
    | CurrentNotHeld

  const LEGACY_VERSION := 1
  const Unconfigured := Config([], 0)

  // ---------------------------------------------------------------------
  // Key material
  // ---------------------------------------------------------------------

  /** How many trailing '=' a padded text carries, at most two. */
  function Padding(s: string): nat {
    if |s| >= 2 && s[|s| - 1] == '=' && s[|s| - 2] == '=' then 2
    else if |s| >= 1 && s[|s| - 1] == '=' then 1
    else 0
  }

  /** How many bytes the text decodes to in one of the four base64 spellings. */
  function DecodedLength(s: string, url: bool, padded: bool): Option<int> {
    var t := DropBreaks(s);
    if padded then
      if |t| % 4 == 0 && Padding(t) <= |t| && AllBase64(t[..|t| - Padding(t)], url)
      then Some(|t| / 4 * 3 - Padding(t)) else None
    else
      if |t| % 4 != 1 && AllBase64(t, url)
      then Some(|t| / 4 * 3 + (if |t| % 4 == 0 then 0 else |t| % 4 - 1)) else None
  }

  /** The first spelling that decodes decides. */
  function DecodeKey(s: string): bool {
    if s == "" then false
    else if DecodedLength(s, false, true).Some? then DecodedLength(s, false, true).value == Secrets.KEY_SIZE
    else if DecodedLength(s, false, false).Some? then DecodedLength(s, false, false).value == Secrets.KEY_SIZE
    else if DecodedLength(s, true, true).Some? then DecodedLength(s, true, true).value == Secrets.KEY_SIZE
    else if DecodedLength(s, true, false).Some? then DecodedLength(s, true, false).value == Secrets.KEY_SIZE
    else false
  }

  predicate KeyChar(c: char) {
    IsBase64(c, false) || IsBase64(c, true) || c == '=' || c == '\r' || c == '\n'
  }

  /** Key material cannot contain the punctuation of the keyring variable. */
  lemma KeysAreCommaFree(s: string)
    requires DecodeKey(s)
    ensures forall c :: c in s ==> KeyChar(c)
    ensures ',' !in s
  {
    var t := DropBreaks(s);
    var n := |t| - Padding(t);
    assert t == t[..n] + t[n..];
    assert forall c :: c in t[n..] ==> c == '=';
    forall c | c in s ensures KeyChar(c) {
      if c != '\r' && c != '\n' {
        assert c in t;
        assert c in t[..n] || c in t[n..];
      }
    }
  }

  // ---------------------------------------------------------------------
  // One entry
  // ---------------------------------------------------------------------

  /** A trimmed, non-empty entry up to its version: what is left is the material. */
  function ReadVersion(entry: string): Result<EncodedKey, ConfigError> {
    var (version, material, found) := Cut(entry, ':');
    if !found then Err(NoVersionPrefix)
    else match ParseInt(Trim(version))
      case None => Err(BadVersion)
      case Some(n) => if n < 1 then Err(VersionBelowOne) else Ok(EncodedKey(n, Trim(material)))
  }

  /** What a trimmed, non-empty entry says, seen or not. */
  function ReadEntry(entry: string): Result<EncodedKey, ConfigError> {
    match ReadVersion(entry)
    case Err(e) => Err(e)
    case Ok(k) => if DecodeKey(k.material) then Ok(k) else Err(BadKey)
  }

  predicate Blank(entry: string) { Trim(entry) == "" }

  /** The key an entry contributes, if it is neither blank nor broken. */
  function KeyOf(entry: string): Option<EncodedKey> {
    if Blank(entry) then None
    else match ReadEntry(Trim(entry)) case Ok(k) => Some(k) case Err(_) => None
  }

  function VersionOf(entry: string): Option<int> {
    match KeyOf(entry) case None => None case Some(k) => Some(k.version)
  }

  function Collect<T>(entries: seq<string>, f: string -> Option<T>): seq<T> {
    if entries == [] then []
    else
      var rest := Collect(entries[1..], f);
      match f(entries[0]) case None => rest case Some(x) => [x] + rest
  }

  function KeysIn(entries: seq<string>): seq<EncodedKey> { Collect(entries, KeyOf) }

  function VersionsIn(entries: seq<string>): seq<int> { Collect(entries, VersionOf) }

  predicate VersionLe(a: EncodedKey, b: EncodedKey) { a.version <= b.version }

  /** The entries spell out a keyring: each is blank or a key, no version comes
      twice, and there is at least one key. */
  predicate WellFormed(entries: seq<string>) {
    && (forall e :: e in entries ==> Blank(e) || KeyOf(e).Some?)
    && Distinct(VersionsIn(entries))
    && KeysIn(entries) != []
  }

  function Maybe<T>(o: Option<T>): seq<T> {
    match o case None => [] case Some(x) => [x]
  }

  lemma CollectMore<T>(e: string, rest: seq<string>, f: string -> Option<T>)
    ensures Collect([e] + rest, f) == Maybe(f(e)) + Collect(rest, f)
    ensures Collect([], f) == []
  {
    assert ([e] + rest)[1..] == rest;
  }

  lemma {:induction false} CollectAppend<T>(a: seq<string>, b: seq<string>, f: string -> Option<T>)
    ensures Collect(a + b, f) == Collect(a, f) + Collect(b, f)
  {
    hide Collect, Maybe;
    if a == [] {
      CollectMore("", [], f);
      assert a + b == b;
    } else {
      CollectAppend(a[1..], b, f);
      CollectMore(a[0], a[1..], f);
      CollectMore(a[0], a[1..] + b, f);
      assert a == [a[0]] + a[1..];
      assert a + b == [a[0]] + (a[1..] + b);
    }
  }

  lemma CollectOne<T>(e: string, f: string -> Option<T>)
    ensures Collect([e], f) == Maybe(f(e))
  {
    assert [e][1..] == [];
  }

  /** One more entry contributes at most one more item. */
  lemma CollectNext<T>(entries: seq<string>, i: nat, f: string -> Option<T>)
    requires i < |entries|
    ensures Collect(entries[..i + 1], f) == Collect(entries[..i], f) + Maybe(f(entries[i]))
  {
    assert entries[..i + 1] == entries[..i] + [entries[i]];
    CollectAppend(entries[..i], [entries[i]], f);
    CollectOne(entries[i], f);
  }

  lemma {:induction false} CollectFrom<T>(entries: seq<string>, f: string -> Option<T>)
    ensures forall x :: x in Collect(entries, f) ==> exists e :: e in entries && f(e) == Some(x)
  {
    if entries != [] {
      CollectFrom(entries[1..], f);
      assert entries[0] in entries;
      forall x | x in Collect(entries, f) ensures exists e :: e in entries && f(e) == Some(x) {
        if x in Collect(entries[1..], f) {
          var e :| e in entries[1..] && f(e) == Some(x);
          assert e in entries;
        } else {
          assert f(entries[0]) == Some(x);
        }
      }
    }
  }

  lemma {:induction false} CollectMirrors(entries: seq<string>, f: string -> Option<EncodedKey>,
                                              g: string -> Option<int>)
    requires forall e :: g(e) == match f(e) { case None => None case Some(k) => Some(k.version) }
    ensures |Collect(entries, g)| == |Collect(entries, f)|
    ensures forall i :: 0 <= i < |Collect(entries, f)| ==> Collect(entries, g)[i] == Collect(entries, f)[i].version
  {
    if entries != [] { CollectMirrors(entries[1..], f, g); }
  }

  lemma RepeatIsNotDistinct<T>(a: seq<T>, x: T, b: seq<T>)
    requires x in a
    ensures !Distinct(a + [x] + b)
  {
    var k :| 0 <= k < |a| && a[k] == x;
    assert (a + [x] + b)[k] == x && (a + [x] + b)[|a|] == x;
  }

  /** The same item collected twice. */
  lemma CollectedTwice(entries: seq<string>, i: nat, f: string -> Option<int>)
    requires i < |entries| && f(entries[i]).Some? && f(entries[i]).value in Collect(entries[..i], f)
    ensures !Distinct(Collect(entries, f))
  {
    hide Distinct, Collect;
    CollectNext(entries, i, f);
    assert entries == entries[..i + 1] + entries[i + 1..];
    CollectAppend(entries[..i + 1], entries[i + 1..], f);
    RepeatIsNotDistinct(Collect(entries[..i], f), f(entries[i]).value, Collect(entries[i + 1..], f));
  }

  /** A version from 1 up, of the machine's width, and 32 bytes of material. */
  predicate GoodKey(k: EncodedKey) {
    1 <= k.version <= MAX_INT64 && DecodeKey(k.material) && Trimmed(k.material)
  }

  lemma KeyOfIsGood(e: string)
    requires KeyOf(e).Some?
    ensures GoodKey(KeyOf(e).value)
  {
    hide DecodeKey, Trim, Cut, ParseInt;
    TrimTrims(Cut(Trim(e), ':').1);
  }

  lemma VersionsOfKeys(entries: seq<string>)
    ensures |VersionsIn(entries)| == |KeysIn(entries)|
    ensures forall i :: 0 <= i < |KeysIn(entries)| ==> VersionsIn(entries)[i] == KeysIn(entries)[i].version
    ensures forall k :: k in KeysIn(entries) ==> GoodKey(k)
  {
    CollectMirrors(entries, KeyOf, VersionOf);
    CollectFrom(entries, KeyOf);
    forall k | k in KeysIn(entries) ensures GoodKey(k) {
      var e :| e in entries && KeyOf(e) == Some(k);
      KeyOfIsGood(e);
    }
  }

  // ---------------------------------------------------------------------
  // The whole variable
  // ---------------------------------------------------------------------

  /** What is wrong with an entry, given the versions configured before it. */
  function EntryFault(raw: string, earlier: seq<int>): Option<ConfigError> {
    if Blank(raw) then None
    else match ReadVersion(Trim(raw))
      case Err(e) => Some(e)
      case Ok(k) =>
        if k.version in earlier then Some(DuplicateVersion)
        else if DecodeKey(k.material) then None else Some(BadKey)
  }

  /** No entry before the i-th is at fault. */
  ghost predicate FineBefore(entries: seq<string>, i: nat)
    requires i <= |entries|
  {
    forall j :: 0 <= j < i ==> EntryFault(entries[j], VersionsIn(entries[..j])).None?
  }

  /** The error of the first entry at fault, or that there is no key at all. */
  ghost predicate FirstFault(entries: seq<string>, e: ConfigError) {
    || (e == NoKeys && FineBefore(entries, |entries|) && KeysIn(entries) == [])
    || exists i :: 0 <= i < |entries| && FineBefore(entries, i)
                   && EntryFault(entries[i], VersionsIn(entries[..i])) == Some(e)
  }

  /** Entry by entry, refusing the first broken or repeated one, then sorted. */
  method ParseKeyringSpec(spec: string) returns (r: Result<seq<EncodedKey>, ConfigError>)
    ensures r.Ok? <==> WellFormed(Split(spec, ','))
    ensures r.Ok? ==> r.value == SortBy(KeysIn(Split(spec, ',')), VersionLe)
    ensures r.Err? ==> FirstFault(Split(spec, ','), r.error)
  {
    hide KeyOf, Blank, Split, SortBy, EntryFault;
    var entries := Split(spec, ',');
    var seen: set<int> := {};
    var keys: seq<EncodedKey> := [];
    for i := 0 to |entries|
      invariant keys == KeysIn(entries[..i])
      invariant forall e :: e in entries[..i] ==> Blank(e) || KeyOf(e).Some?
      invariant Distinct(VersionsIn(entries[..i]))
      invariant forall v :: v in seen <==> v in VersionsIn(entries[..i])
      invariant FineBefore(entries, i)
    {
      assert entries[i] in entries;
      assert entries[..i + 1] == entries[..i] + [entries[i]];
      CollectNext(entries, i, KeyOf);
      CollectNext(entries, i, VersionOf);
      var read := ReadOne(entries[i], seen, VersionsIn(entries[..i]));
      if read.Err? {
        if read.error == DuplicateVersion && KeyOf(entries[i]).Some? {
          CollectedTwice(entries, i, VersionOf);
        }
        return Err(read.error);
      }
      if read.value.Some? {
        seen := seen + {read.value.value.version};
        keys := keys + [read.value.value];
      }
    }
    assert entries[..|entries|] == entries;
    if |keys| == 0 {
      return Err(NoKeys);
    }
    return Ok(SortBy(keys, VersionLe));
  }

  /** One turn of the loop: skip a blank entry, take a new key, or say what is wrong. */
  method ReadOne(raw: string, seen: set<int>, ghost earlier: seq<int>)
    returns (r: Result<Option<EncodedKey>, ConfigError>)
    requires forall v :: v in seen <==> v in earlier
    ensures EntryFault(raw, earlier) == if r.Err? then Some(r.error) else None
    ensures r.Ok? ==> (if Blank(raw) then r.value.None? else KeyOf(raw).Some? && r.value == KeyOf(raw))
    ensures r.Ok? && r.value.Some? ==> VersionOf(raw) == Some(r.value.value.version) && r.value.value.version !in seen
    ensures r.Ok? && r.value.None? ==> VersionOf(raw).None? && KeyOf(raw).None?
    ensures r.Err? ==>
      && !Blank(raw)
      && (KeyOf(raw).None? || (r.error == DuplicateVersion && VersionOf(raw).Some? && VersionOf(raw).value in seen))
  {
    hide DecodeKey, Trim, Cut, ParseInt;
    var entry := Trim(raw);
    if entry == "" {
      return Ok(None);
    }
    var (version, material, found) := Cut(entry, ':');
    if !found {
      return Err(NoVersionPrefix);
    }
    var n := ParseInt(Trim(version));
    if n.None? {
      return Err(BadVersion);
    }
    if n.value < 1 {
      return Err(VersionBelowOne);
    }
    if n.value in seen {
      return Err(DuplicateVersion);
    }
    var key := Trim(material);
    if !DecodeKey(key) {
      return Err(BadKey);
    }
    return Ok(Some(EncodedKey(n.value, key)));
  }

  /** The same reading as a function, for the decisions built on it. */
  function ReadSpec(spec: string): Option<seq<EncodedKey>> {
    if WellFormed(Split(spec, ',')) then Some(SortBy(KeysIn(Split(spec, ',')), VersionLe)) else None
  }

  function ChooseCurrent(keys: seq<EncodedKey>, current: string): Result<int, ConfigError> {
    if current == "" then
      if |keys| == 1 then Ok(keys[0].version) else Err(CurrentUnset)
    else match ParseInt(current)
      case None => Err(BadCurrent)
      case Some(n) => if exists k :: k in keys && k.version == n then Ok(n) else Err(CurrentNotHeld)
  }

  /** What a spec and a nomination configure. */
  function FromSpec(s: string, c: string): Result<Config, ConfigError> {
    match ReadSpec(s)
    case None => Err(BadKey)
    case Some(keys) =>
      match ChooseCurrent(keys, c) case Err(e) => Err(e) case Ok(n) => Ok(Config(keys, n))
  }

  /** All three variables. A refused spec is reported as BadKey here; which of its
      errors it was is ParseKeyringSpec's to say. */
  function ParseKeyring(spec: string, current: string, legacy: string): Result<Config, ConfigError> {
    var (s, c, l) := (Trim(spec), Trim(current), Trim(legacy));
    if s != "" && l != "" then Err(BothSet)
    else if s == "" then
      if l == "" then (if c != "" then Err(CurrentWithoutKeys) else Ok(Unconfigured))
      else if c != "" && c != FormatInt(LEGACY_VERSION) then Err(LegacyIsVersionOne)
      else if !DecodeKey(l) then Err(BadKey)
      else Ok(Config([EncodedKey(LEGACY_VERSION, l)], LEGACY_VERSION))
    else FromSpec(s, c)
  }

  // ---------------------------------------------------------------------
  // What a parsed keyring guarantees
  // ---------------------------------------------------------------------

  ghost predicate GoodConfig(c: Config) {
    && |c.keys| > 0
    && (forall i, j :: 0 <= i < j < |c.keys| ==> c.keys[i].version < c.keys[j].version)
    && (forall k :: k in c.keys ==> GoodKey(k))
    && (exists k :: k in c.keys && k.version == c.current)
  }

  lemma VersionLeIsTotal()
    ensures TotalPreorder(VersionLe)
  {
  }

  lemma SortedKeysAscend(keys: seq<EncodedKey>, r: seq<EncodedKey>)
    requires r == SortBy(keys, VersionLe)
    requires forall i, j :: 0 <= i < j < |keys| ==> keys[i].version != keys[j].version
    ensures forall i, j :: 0 <= i < j < |r| ==> r[i].version < r[j].version
    ensures forall k :: k in r <==> k in keys
  {
    VersionLeIsTotal();
    SortIsSorted(keys, VersionLe);
    SameElements(r, keys);
    assert Distinct(keys);
    DistinctIffSingleCopies(keys);
    DistinctIffSingleCopies(r);
    forall i, j | 0 <= i < j < |r| ensures r[i].version < r[j].version {
      assert VersionLe(r[i], r[j]);
      assert r[i] in keys && r[j] in keys;
      var a, b :| 0 <= a < |keys| && 0 <= b < |keys| && keys[a] == r[i] && keys[b] == r[j];
      assert a != b;
    }
  }

  /** A successful parse is either "nothing configured" or a keyring with versions
      from 1 up, strictly ascending, the current one among them. */
  lemma ParsedIsGood(spec: string, current: string, legacy: string)
    requires ParseKeyring(spec, current, legacy).Ok?
    ensures var c := ParseKeyring(spec, current, legacy).value;
            if Trim(spec) == "" && Trim(legacy) == "" then c == Unconfigured && Trim(current) == ""
            else GoodConfig(c)
  {
    hide DecodeKey, Trim, Split, ParseInt, SortBy, KeyOf;
    var s := Trim(spec);
    var c := ParseKeyring(spec, current, legacy).value;
    if s != "" {
      var entries := Split(s, ',');
      VersionsOfKeys(entries);
      SortedKeysAscend(KeysIn(entries), c.keys);
      assert c.keys[0] in c.keys;
    } else if Trim(legacy) != "" {
      TrimTrims(legacy);
      assert c.keys[0] in c.keys;
    }
  }

  // ---------------------------------------------------------------------
  // Exactly what is accepted
  // ---------------------------------------------------------------------

  lemma PaddedLength(s: string, url: bool)
    ensures DecodedLength(s, url, true) == Some(32) <==>
            var t := DropBreaks(s); |t| == 44 && t[43] == '=' && AllBase64(t[..43], url)
  {
    var t := DropBreaks(s);
    hide DropBreaks, IsBase64;
    if |t| == 44 && AllBase64(t[..43], url) {
      assert t[..43][42] == t[42] && t[42] in t[..43];
      EqualsIsNoBase64(url);
    }
  }

  lemma RawLength(s: string, url: bool)
    ensures DecodedLength(s, url, false) == Some(32) <==> |DropBreaks(s)| == 43 && AllBase64(DropBreaks(s), url)
    ensures |DropBreaks(s)| > 0 && DropBreaks(s)[|DropBreaks(s)| - 1] == '=' ==> DecodedLength(s, url, false).None?
  {
    var t := DropBreaks(s);
    hide DropBreaks, IsBase64;
    EqualsIsNoBase64(url);
    if |t| > 0 { assert t[|t| - 1] in t; }
  }

  lemma EqualsIsNoBase64(url: bool)
    ensures !IsBase64('=', url)
  {
  }

  /** Text carries a key exactly when, line breaks aside, it is 43 characters of one of the
      two alphabets, which is what 32 bytes take, with or without the one '=' that pads them. */
  lemma KeysAre43Characters(s: string)
    ensures DecodeKey(s) <==>
            var t := DropBreaks(s);
            && (|t| == 43 || (|t| == 44 && t[43] == '='))
            && (AllBase64(t[..43], false) || AllBase64(t[..43], true))
  {
    var t := DropBreaks(s);
    PaddedLength(s, false);
    PaddedLength(s, true);
    RawLength(s, false);
    RawLength(s, true);
    DroppedEmpty();
    if |t| == 44 && t[43] == '=' && AllBase64(t[..43], true) && !AllBase64(t[..43], false) {
      UrlKeyIsNotStandard(s);
    }
    hide DropBreaks, AllBase64;
    if |t| == 43 { assert t[..43] == t; }
  }

  lemma UrlKeyIsNotStandard(s: string)
    requires |DropBreaks(s)| == 44 && DropBreaks(s)[43] == '='
    requires AllBase64(DropBreaks(s)[..43], true) && !AllBase64(DropBreaks(s)[..43], false)
    ensures DecodedLength(s, false, true).None?
  {
    var t := DropBreaks(s);
    hide DropBreaks, IsBase64;
    EqualsIsNoBase64(true);
    assert t[..43][42] == t[42] && t[42] in t[..43];
    assert Padding(t) == 1;
  }

  lemma DroppedEmpty()
    ensures DropBreaks("") == ""
  {
  }

  /** What an entry says: the number before its first colon and the key after it, white
      space around either aside. */
  lemma KeyOfIff(e: string, k: EncodedKey)
    ensures KeyOf(e) == Some(k) <==>
            exists v: string, m: string ::
              && ':' !in v && Trim(e) == v + [':'] + m
              && ParseInt(Trim(v)) == Some(k.version) && k.version >= 1
              && k.material == Trim(m) && DecodeKey(k.material)
  {
    hide Trim, ParseInt, DecodeKey;
    if v: string, m: string :| ':' !in v && Trim(e) == v + [':'] + m && ParseInt(Trim(v)) == Some(k.version)
                               && k.version >= 1 && k.material == Trim(m) && DecodeKey(k.material) {
      CutFirst(v, m, ':');
    }
    if KeyOf(e) == Some(k) {
      var (v, m, found) := Cut(Trim(e), ':');
      assert ':' !in v && Trim(e) == v + [':'] + m;
    }
  }

  /** Every entry is blank or a key, no two are keys of one version, and some entry is one. */
  ghost predicate SpellsKeyring(entries: seq<string>) {
    && (forall e :: e in entries ==> Trim(e) == "" || KeyOf(e).Some?)
    && (forall i, j :: 0 <= i < j < |entries| && KeyOf(entries[i]).Some? && KeyOf(entries[j]).Some? ==>
          KeyOf(entries[i]).value.version != KeyOf(entries[j]).value.version)
    && (exists e :: e in entries && KeyOf(e).Some?)
  }

  lemma CollectSplits<T>(entries: seq<string>, i: nat, f: string -> Option<T>)
    requires i < |entries|
    ensures Collect(entries, f) ==
            Collect(entries[..i], f) + Maybe(f(entries[i])) + Collect(entries[i + 1..], f)
  {
    hide Collect, Maybe;
    CollectNext(entries, i, f);
    assert entries == entries[..i + 1] + entries[i + 1..];
    CollectAppend(entries[..i + 1], entries[i + 1..], f);
  }

  lemma CollectHas<T>(entries: seq<string>, i: nat, f: string -> Option<T>)
    requires i < |entries| && f(entries[i]).Some?
    ensures f(entries[i]).value in Collect(entries, f)
  {
    CollectSplits(entries, i, f);
    hide Collect;
  }

  lemma CollectHolds<T>(entries: seq<string>, f: string -> Option<T>, x: T)
    ensures x in Collect(entries, f) <==> exists e :: e in entries && f(e) == Some(x)
  {
    CollectFrom(entries, f);
    if e :| e in entries && f(e) == Some(x) {
      var i :| 0 <= i < |entries| && entries[i] == e;
      CollectHas(entries, i, f);
    }
  }

  lemma {:induction false} DistinctIff(entries: seq<string>, f: string -> Option<int>)
    ensures Distinct(Collect(entries, f)) <==>
            forall i, j :: 0 <= i < j < |entries| && f(entries[i]).Some? && f(entries[j]).Some? ==>
              f(entries[i]).value != f(entries[j]).value
  {
    if entries != [] {
      var rest := entries[1..];
      DistinctIff(rest, f);
      CollectMore(entries[0], rest, f);
      assert entries == [entries[0]] + rest;
      hide Collect;
      if f(entries[0]).Some? {
        DistinctHead(f(entries[0]).value, Collect(rest, f));
        CollectHolds(rest, f, f(entries[0]).value);
      }
      PairsFromHead(entries, f);
    }
  }

  lemma DistinctHead<T>(x: T, s: seq<T>)
    ensures Distinct([x] + s) <==> x !in s && Distinct(s)
  {
    var all := [x] + s;
    if Distinct(all) {
      forall i, j | 0 <= i < j < |s| ensures s[i] != s[j] { assert all[i + 1] != all[j + 1]; }
      forall i | 0 <= i < |s| ensures s[i] != x { assert all[0] != all[i + 1]; }
    }
    if x !in s && Distinct(s) {
      forall i, j | 0 <= i < j < |all| ensures all[i] != all[j] {
        if i > 0 { assert all[i] == s[i - 1] && all[j] == s[j - 1]; } else { assert all[j] in s; }
      }
    }
  }

  lemma PairsFromHead(entries: seq<string>, f: string -> Option<int>)
    requires entries != []
    ensures (forall i, j :: 0 <= i < j < |entries| && f(entries[i]).Some? && f(entries[j]).Some? ==>
               f(entries[i]).value != f(entries[j]).value)
            <==>
            && (forall i, j :: 0 <= i < j < |entries[1..]| && f(entries[1..][i]).Some? && f(entries[1..][j]).Some? ==>
                  f(entries[1..][i]).value != f(entries[1..][j]).value)
            && (f(entries[0]).Some? ==> !exists e :: e in entries[1..] && f(e) == f(entries[0]))
  {
    var rest := entries[1..];
    assert forall i :: 0 <= i < |rest| ==> rest[i] == entries[i + 1];
    if (forall i, j :: 0 <= i < j < |rest| && f(rest[i]).Some? && f(rest[j]).Some? ==>
          f(rest[i]).value != f(rest[j]).value)
       && (f(entries[0]).Some? ==> !exists e :: e in rest && f(e) == f(entries[0])) {
      forall i, j | 0 <= i < j < |entries| && f(entries[i]).Some? && f(entries[j]).Some?
        ensures f(entries[i]).value != f(entries[j]).value
      {
        assert entries[j] == rest[j - 1];
        if i > 0 { assert entries[i] == rest[i - 1]; } else { assert entries[j] in rest; }
      }
    }
  }

  lemma WellFormedIff(entries: seq<string>)
    ensures WellFormed(entries) <==> SpellsKeyring(entries)
    ensures forall k :: k in KeysIn(entries) <==> exists e :: e in entries && KeyOf(e) == Some(k)
  {
    hide KeyOf, Collect, Distinct, Trim;
    DistinctIff(entries, VersionOf);
    forall k ensures k in KeysIn(entries) <==> exists e :: e in entries && KeyOf(e) == Some(k) {
      CollectHolds(entries, KeyOf, k);
    }
    if KeysIn(entries) != [] {
      assert KeysIn(entries)[0] in KeysIn(entries);
    }
    if e :| e in entries && KeyOf(e).Some? {
      assert KeyOf(e) == Some(KeyOf(e).value);
      assert KeyOf(e).value in KeysIn(entries);
    }
  }

  /** The one key the entries carry. */
  ghost predicate OnlyKey(entries: seq<string>, k: EncodedKey) {
    && (exists e :: e in entries && KeyOf(e) == Some(k))
    && forall e :: e in entries && KeyOf(e).Some? ==> KeyOf(e) == Some(k)
  }

  /** Some entry carries a key of this version. */
  ghost predicate Carries(entries: seq<string>, version: int) {
    exists e :: e in entries && KeyOf(e).Some? && KeyOf(e).value.version == version
  }

  /** Which version the entries and the nomination settle on, if any: the one nominated,
      as long as an entry carries it, or with no nomination the only one there is. */
  ghost predicate SettlesOn(entries: seq<string>, current: string, version: int) {
    if current == "" then exists k: EncodedKey :: OnlyKey(entries, k) && k.version == version
    else ParseInt(current) == Some(version) && Carries(entries, version)
  }

  lemma SpecIs(spec: string)
    ensures ReadSpec(spec).Some? <==> SpellsKeyring(Split(spec, ','))
    ensures ReadSpec(spec).Some? ==>
              && ReadSpec(spec).value != []
              && (forall k :: k in ReadSpec(spec).value <==> exists e :: e in Split(spec, ',') && KeyOf(e) == Some(k))
              && forall i, j :: 0 <= i < j < |ReadSpec(spec).value| ==>
                   ReadSpec(spec).value[i].version < ReadSpec(spec).value[j].version
  {
    hide KeyOf, Split, Collect, SortBy, SpellsKeyring;
    var entries := Split(spec, ',');
    WellFormedIff(entries);
    if WellFormed(entries) {
      VersionsOfKeys(entries);
      SortedKeysAscend(KeysIn(entries), ReadSpec(spec).value);
    }
  }

  lemma ChoiceSettles(keys: seq<EncodedKey>, entries: seq<string>, current: string)
    requires forall k :: k in keys <==> exists e :: e in entries && KeyOf(e) == Some(k)
    requires keys != [] && forall i, j :: 0 <= i < j < |keys| ==> keys[i].version < keys[j].version
    ensures forall n :: ChooseCurrent(keys, current) == Ok(n) <==> SettlesOn(entries, current, n)
  {
    hide KeyOf, ParseInt;
    forall n ensures (exists k :: k in keys && k.version == n) <==> Carries(entries, n) {
      if k :| k in keys && k.version == n {
        var e :| e in entries && KeyOf(e) == Some(k);
      }
      if e :| e in entries && KeyOf(e).Some? && KeyOf(e).value.version == n {
        assert KeyOf(e) == Some(KeyOf(e).value);
        assert KeyOf(e).value in keys;
      }
    }
    forall k ensures OnlyKey(entries, k) <==> keys == [k] { OnlyKeyIff(keys, entries, k); }
    if |keys| == 1 { assert keys == [keys[0]]; }
  }

  lemma OnlyKeyIff(keys: seq<EncodedKey>, entries: seq<string>, k: EncodedKey)
    requires forall x :: x in keys <==> exists e :: e in entries && KeyOf(e) == Some(x)
    requires keys != [] && forall i, j :: 0 <= i < j < |keys| ==> keys[i].version < keys[j].version
    ensures OnlyKey(entries, k) <==> keys == [k]
  {
    hide KeyOf;
    assert |keys| > 1 ==> keys[0].version < keys[1].version;
    if OnlyKey(entries, k) {
      forall i | 0 <= i < |keys| ensures keys[i] == k {
        assert keys[i] in keys;
        var e :| e in entries && KeyOf(e) == Some(keys[i]);
      }
    }
    if keys == [k] {
      assert k in keys;
      forall e | e in entries && KeyOf(e).Some? ensures KeyOf(e) == Some(k) {
        assert KeyOf(e) == Some(KeyOf(e).value);
        assert KeyOf(e).value in keys;
      }
    }
  }

  /** Exactly when the three variables configure something, and what. White space around
      each aside: nothing at all; or the legacy key alone, with no version nominated or
      version 1; or a spec alone that spells out a keyring and settles, with the nomination,
      on a version. So both keys set, a version nominated for no keys, and several keys with
      none nominated are always refused. */
  lemma ParseKeyringIff(spec: string, current: string, legacy: string, config: Config)
    ensures var (s, c, l) := (Trim(spec), Trim(current), Trim(legacy));
            ParseKeyring(spec, current, legacy) == Ok(config) <==>
            || (s == "" && c == "" && l == "" && config == Config([], 0))
            || (s == "" && l != "" && DecodeKey(l) && (c == "" || c == "1") && config == Config([EncodedKey(1, l)], 1))
            || (s != "" && l == "" && SpellsKeyring(Split(s, ',')) && SettlesOn(Split(s, ','), c, config.current)
                && (forall k :: k in config.keys <==> exists e :: e in Split(s, ',') && KeyOf(e) == Some(k))
                && (forall i, j :: 0 <= i < j < |config.keys| ==> config.keys[i].version < config.keys[j].version))
  {
    hide KeyOf, Split, SpellsKeyring, SettlesOn, Trim, DecodeKey, FormatInt, ReadSpec, ChooseCurrent, ParseKeyring;
    var s := Trim(spec);
    ParseCases(spec, current, legacy);
    SpecIs(s);
    if s != "" && Trim(legacy) == "" { SpecConfigures(s, Trim(current), config); }
  }

  lemma SpecConfigures(s: string, c: string, config: Config)
    ensures FromSpec(s, c) == Ok(config) <==>
            && SpellsKeyring(Split(s, ',')) && SettlesOn(Split(s, ','), c, config.current)
            && (forall k :: k in config.keys <==> exists e :: e in Split(s, ',') && KeyOf(e) == Some(k))
            && (forall i, j :: 0 <= i < j < |config.keys| ==> config.keys[i].version < config.keys[j].version)
  {
    hide KeyOf, Split, SpellsKeyring, SettlesOn, ReadSpec, ChooseCurrent;
    SpecIs(s);
    if ReadSpec(s).Some? {
      var keys := ReadSpec(s).value;
      ChoiceSettles(keys, Split(s, ','), c);
      if (forall k :: k in config.keys <==> exists e :: e in Split(s, ',') && KeyOf(e) == Some(k))
         && (forall i, j :: 0 <= i < j < |config.keys| ==> config.keys[i].version < config.keys[j].version) {
        assert forall k :: k in config.keys <==> k in keys;
        OneArrangement(config.keys, keys);
      }
    }
  }

  lemma ParseCases(spec: string, current: string, legacy: string)
    ensures var (s, c, l) := (Trim(spec), Trim(current), Trim(legacy));
            ParseKeyring(spec, current, legacy) ==
            if s != "" && l != "" then Err(BothSet)
            else if s != "" then FromSpec(s, c)
            else if l == "" then (if c != "" then Err(CurrentWithoutKeys) else Ok(Unconfigured))
            else if c != "" && c != "1" then Err(LegacyIsVersionOne)
            else if !DecodeKey(l) then Err(BadKey)
            else Ok(Config([EncodedKey(1, l)], 1))
  {
    OneIsOne();
    hide Trim, DecodeKey, FormatInt, ReadSpec, ChooseCurrent;
  }

  lemma OneIsOne()
    ensures FormatInt(LEGACY_VERSION) == "1"
  {
  }

  lemma OneArrangement(a: seq<EncodedKey>, b: seq<EncodedKey>)
    requires forall k :: k in a <==> k in b
    requires forall i, j :: 0 <= i < j < |a| ==> a[i].version < a[j].version
    requires forall i, j :: 0 <= i < j < |b| ==> b[i].version < b[j].version
    ensures a == b
  {
    assert Distinct(a) && Distinct(b);
    SameMembersSameBag(a, b);
    forall x, y | x in a && y in a && VersionLe(x, y) && VersionLe(y, x) ensures x == y {
      var i, j :| 0 <= i < |a| && 0 <= j < |a| && a[i] == x && a[j] == y;
      assert !(i < j) && !(j < i);
    }
    SortedUnique(a, b, VersionLe);
  }

  /** Which refusal: each of the errors that are not the spec's own. */
  lemma RefusedConfigs(spec: string, current: string, legacy: string)
    ensures var (s, c, l) := (Trim(spec), Trim(current), Trim(legacy));
            var r := ParseKeyring(spec, current, legacy);
            && (r == Err(BothSet) <==> s != "" && l != "")
            && (r == Err(CurrentWithoutKeys) <==> s == "" && l == "" && c != "")
            && (r == Err(LegacyIsVersionOne) <==> s == "" && l != "" && c != "" && c != "1")
            && (r == Err(CurrentUnset) <==>
                  s != "" && l == "" && SpellsKeyring(Split(s, ',')) && c == ""
                  && !exists k: EncodedKey :: OnlyKey(Split(s, ','), k))
            && (r == Err(BadCurrent) <==>
                  s != "" && l == "" && SpellsKeyring(Split(s, ',')) && c != "" && ParseInt(c).None?)
            && (r == Err(CurrentNotHeld) <==>
                  s != "" && l == "" && SpellsKeyring(Split(s, ',')) && c != "" && ParseInt(c).Some?
                  && !Carries(Split(s, ','), ParseInt(c).value))
  {
    hide KeyOf, Split, SpellsKeyring, Trim, DecodeKey, FormatInt, ReadSpec, OnlyKey, Carries, ParseInt, ChooseCurrent,
         ParseKeyring;
    var s := Trim(spec);
    ParseCases(spec, current, legacy);
    SpecIs(s);
    if ReadSpec(s).Some? {
      ChoiceRefuses(ReadSpec(s).value, Split(s, ','), Trim(current));
    }
  }

  lemma ChoiceRefuses(keys: seq<EncodedKey>, entries: seq<string>, current: string)
    requires forall k :: k in keys <==> exists e :: e in entries && KeyOf(e) == Some(k)
    requires keys != [] && forall i, j :: 0 <= i < j < |keys| ==> keys[i].version < keys[j].version
    ensures var r := ChooseCurrent(keys, current);
            && (r == Err(CurrentUnset) <==> current == "" && !exists k: EncodedKey :: OnlyKey(entries, k))
            && (r == Err(BadCurrent) <==> current != "" && ParseInt(current).None?)
            && (r == Err(CurrentNotHeld) <==>
                  current != "" && ParseInt(current).Some? && !Carries(entries, ParseInt(current).value))
            && (r.Err? ==> r.error in {CurrentUnset, BadCurrent, CurrentNotHeld})
  {
    ChoiceSettles(keys, entries, current);
    hide KeyOf, ParseInt, OnlyKey, Carries;
    if current == "" {
      if k: EncodedKey :| OnlyKey(entries, k) {
        assert SettlesOn(entries, current, k.version);
      }
      if |keys| == 1 {
        assert ChooseCurrent(keys, current) == Ok(keys[0].version);
        assert SettlesOn(entries, current, keys[0].version);
      }
    } else if ParseInt(current).Some? {
      assert ChooseCurrent(keys, current) == Ok(ParseInt(current).value) <==>
             SettlesOn(entries, current, ParseInt(current).value);
    }
  }
}
