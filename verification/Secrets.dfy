/** The keyring that seals provider credentials, over a symbolic AEAD.

    A ciphertext remembers the key, nonce, plaintext and associated data it was
    made from, so opening it succeeds exactly when all of them agree again.
    Nonces are an argument: no property here depends on how they are drawn. */
module Secrets {
  import opened Prelude

  const KEY_SIZE := 32
  const NONCE_SIZE := 12
  const AES_GCM := "aes-256-gcm"

  /** A value sealed before algorithms were named has none. */
  predicate SupportedAlgorithm(algorithm: string) { algorithm == "" || algorithm == AES_GCM }

  type Key = seq<int>
  type Nonce = n: seq<int> | |n| == NONCE_SIZE witness [0, 0, 0, 0, 0, 0, 0, 0, 0, 0, 0, 0]

  /** Associated data binding a sealed value to one field of one row. */
  datatype Aad = Aad(kind: string, id: nat, field: string)

  datatype Ciphertext =
    | Box(key: Key, nonce: seq<int>, plaintext: string, aad: Aad)
    | Foreign(bytes: seq<int>)

  datatype Sealed = Sealed(ciphertext: Ciphertext, nonce: seq<int>, keyVersion: int, algorithm: string)

  datatype OpenError = UnsupportedAlgorithm | UnknownKeyVersion | CannotOpen

  datatype SealError = EmptyValue

  datatype KeyMaterial = KeyMaterial(version: int, key: Key)

  datatype KeyringError =
    | EmptyKeyring
    | InvalidKeyVersion(version: int)
    | DuplicateKeyVersion(version: int)
    | BadKeySize(version: int)
    | NoCurrentKey

  datatype RawKeyring = RawKeyring(keys: map<int, Key>, current: int, versions: seq<int>) {

    ghost predicate Valid() {
      && current in keys
      && StrictlyAscending(versions)
      && (forall v :: v in versions <==> v in keys)
      && (forall v :: v in keys ==> v >= 1 && |keys[v]| == KEY_SIZE)
    }

    predicate Has(version: int) { version in keys }

    /** Encrypt under the current key; there is no way to name another. */
    function Seal(plaintext: string, aad: Aad, nonce: Nonce): Result<Sealed, SealError>
      requires Valid()
    {
      if plaintext == "" then Err(EmptyValue)
      else Ok(Sealed(Box(keys[current], nonce, plaintext, aad), nonce, current, AES_GCM))
    }

    /** Decrypt with the key the value's own version names, and with no other. */
    function Open(s: Sealed, aad: Aad): Result<string, OpenError> {
      if !SupportedAlgorithm(s.algorithm) then Err(UnsupportedAlgorithm)
      else if s.keyVersion !in keys then Err(UnknownKeyVersion)
      else if |s.nonce| != NONCE_SIZE then Err(CannotOpen)
      else match s.ciphertext
        case Foreign(_) => Err(CannotOpen)
        case Box(k, n, p, a) =>
          if k == keys[s.keyVersion] && n == s.nonce && a == aad then Ok(p) else Err(CannotOpen)
    }

    /** The keyring an operator is left with after dropping one version. */
    function Without(version: int): RawKeyring {
      RawKeyring(keys - {version}, current, DropVersion(versions, version))
    }
  }

  type Keyring = r: RawKeyring | r.Valid()
    ghost witness RawKeyring(map[1 := seq(KEY_SIZE, _ => 0)], 1, [1])

  function DropVersion(vs: seq<int>, v: int): (r: seq<int>)
    ensures forall x :: x in r <==> x in vs && x != v
  {
    if vs == [] then [] else
      assert vs == [vs[0]] + vs[1..];
      var rest := DropVersion(vs[1..], v);
      if vs[0] == v then rest else [vs[0]] + rest
  }

  lemma {:induction false} DropKeepsAscending(vs: seq<int>, v: int)
    requires StrictlyAscending(vs)
    ensures StrictlyAscending(DropVersion(vs, v))
  {
    if vs != [] {
      DropKeepsAscending(vs[1..], v);
      assert vs == [vs[0]] + vs[1..];
      var r, rest := DropVersion(vs, v), DropVersion(vs[1..], v);
      assert r == if vs[0] == v then rest else [vs[0]] + rest;
      forall j | 0 <= j < |rest| ensures vs[0] < rest[j] {
        assert rest[j] in vs[1..];
      }
    }
  }

  lemma WithoutIsValid(ring: Keyring, version: int)
    requires version != ring.current
    ensures ring.Without(version).Valid()
  {
    DropKeepsAscending(ring.versions, version);
  }

  /** Every sealed value opens, under the ring that sealed it, to what was put
      in; under any ring it opens to that or to nothing. */
  lemma SealThenOpen(ring: Keyring, other: Keyring, plaintext: string, aad: Aad, nonce: Nonce)
    requires plaintext != ""
    ensures var s := ring.Seal(plaintext, aad, nonce).value;
            && ring.Open(s, aad) == Ok(plaintext)
            && s.keyVersion == ring.current && s.nonce == nonce && s.algorithm == "aes-256-gcm"
            && (other.Open(s, aad) == Ok(plaintext)
                <==> other.Has(ring.current) && other.keys[ring.current] == ring.keys[ring.current])
            && (forall a :: a != aad ==> other.Open(s, a).Err?)
  {
  }

  /** Exactly what opens: a value under a supported algorithm and a version held, made with
      that version's key, with the nonce stored beside it, a full one, and for this
      associated data. And which error anything else gets. */
  lemma OpensIff(ring: Keyring, s: Sealed, aad: Aad, plaintext: string)
    ensures ring.Open(s, aad) == Ok(plaintext) <==>
            && s.algorithm in ["", "aes-256-gcm"] && s.keyVersion in ring.keys && |s.nonce| == 12
            && s.ciphertext == Box(ring.keys[s.keyVersion], s.nonce, plaintext, aad)
    ensures ring.Open(s, aad) == Err(UnsupportedAlgorithm) <==> s.algorithm !in ["", "aes-256-gcm"]
    ensures ring.Open(s, aad) == Err(UnknownKeyVersion) <==>
              s.algorithm in ["", "aes-256-gcm"] && s.keyVersion !in ring.keys
  {
  }

  /** Two keyrings that both open a value open it to the same thing. */
  lemma OpenAgrees(a: Keyring, b: Keyring, sealed: Sealed, aad: Aad)
    requires a.Open(sealed, aad).Ok? && b.Open(sealed, aad).Ok?
    ensures a.Open(sealed, aad) == b.Open(sealed, aad)
  {
  }

  predicate GoodMaterial(m: KeyMaterial) { m.version >= 1 && |m.key| == KEY_SIZE }

  ghost predicate DistinctVersions(materials: seq<KeyMaterial>) {
    forall i, j :: 0 <= i < j < |materials| ==> materials[i].version != materials[j].version
  }

  /** The material read so far: all of it good, each version once, and nothing else. */
  ghost predicate Collected(materials: seq<KeyMaterial>, keys: map<int, Key>, versions: seq<int>) {
    && (forall m :: m in materials ==> GoodMaterial(m) && m.version in keys && keys[m.version] == m.key)
    && (forall v :: v in keys ==> exists m :: m in materials && m.version == v)
    && (forall v :: v in versions <==> v in keys)
    && DistinctVersions(materials) && Distinct(versions)
  }

  lemma NothingCollected()
    ensures Collected([], map[], [])
  {
  }

  lemma CollectMore(materials: seq<KeyMaterial>, m: KeyMaterial, keys: map<int, Key>, versions: seq<int>)
    requires Collected(materials, keys, versions) && GoodMaterial(m) && m.version !in keys
    ensures Collected(materials + [m], keys[m.version := m.key], versions + [m.version])
  {
    var more := materials + [m];
    forall i, j | 0 <= i < j < |more| ensures more[i].version != more[j].version {
      if j == |materials| { assert materials[i] in materials; }
    }
    assert m in more;
    forall v | v in keys ensures exists n :: n in more && n.version == v {
      var n :| n in materials && n.version == v;
      assert n in more;
    }
  }

  /** A version met before was configured twice. */
  lemma MetBefore(materials: seq<KeyMaterial>, i: nat, keys: map<int, Key>, versions: seq<int>)
    requires i < |materials| && Collected(materials[..i], keys, versions) && materials[i].version in keys
    ensures exists j :: 0 <= j < i && materials[j].version == materials[i].version
    ensures !DistinctVersions(materials)
  {
    var m :| m in materials[..i] && m.version == materials[i].version;
    var k :| 0 <= k < i && materials[k] == m;
  }

  lemma CollectedIsARing(materials: seq<KeyMaterial>, keys: map<int, Key>, versions: seq<int>, current: int)
    requires Collected(materials, keys, versions)
    ensures current in keys <==> exists m :: m in materials && m.version == current
    ensures current in keys ==> RawKeyring(keys, current, SortBy(versions, IntLe)).Valid()
  {
    SortIntsStrict(versions);
    forall v | v in keys ensures v >= 1 && |keys[v]| == KEY_SIZE {
      var m :| m in materials && m.version == v;
    }
  }

  /** Build a keyring from raw material. */
  method NewKeyring(materials: seq<KeyMaterial>, current: int) returns (r: Result<RawKeyring, KeyringError>)
    ensures r.Ok? ==>
      && r.value.Valid() && r.value.current == current
      && (forall m :: m in materials ==> m.version in r.value.keys && r.value.keys[m.version] == m.key)
      && (forall v :: v in r.value.keys ==> exists m :: m in materials && m.version == v)
    ensures r.Ok? <==>
      && |materials| > 0
      && (forall m :: m in materials ==> GoodMaterial(m))
      && DistinctVersions(materials)
      && (exists m :: m in materials && m.version == current)
    ensures r == Err(EmptyKeyring) <==> |materials| == 0
    ensures r == Err(NoCurrentKey) <==>
      && |materials| > 0
      && (forall m :: m in materials ==> GoodMaterial(m))
      && DistinctVersions(materials)
      && (forall m :: m in materials ==> m.version != current)
    ensures r.Err? ==>
      match r.error
      case InvalidKeyVersion(v) => v < 1 && exists m :: m in materials && m.version == v
      case DuplicateKeyVersion(v) =>
        exists i, j :: 0 <= i < j < |materials| && materials[i].version == v == materials[j].version
      case BadKeySize(v) => exists m :: m in materials && m.version == v && |m.key| != 32
      case _ => true
  {
    if |materials| == 0 {
      return Err(EmptyKeyring);
    }
    hide SortBy, DistinctVersions, Distinct, RawKeyring.Valid;
    var keys: map<int, Key> := map[];
    var versions: seq<int> := [];
    NothingCollected();
    assert materials[..0] == [];
    for i := 0 to |materials|
      invariant Collected(materials[..i], keys, versions)
    {
      hide Collected;
      var m := materials[i];
      assert m in materials;
      assert materials[..i + 1] == materials[..i] + [m];
      if m.version in keys {
        MetBefore(materials, i, keys, versions);
        return Err(DuplicateKeyVersion(m.version));
      }
      if m.version < 1 {
        return Err(InvalidKeyVersion(m.version));
      }
      if |m.key| != KEY_SIZE {
        return Err(BadKeySize(m.version));
      }
      CollectMore(materials[..i], m, keys, versions);
      keys := keys[m.version := m.key];
      versions := versions + [m.version];
    }
    assert materials[..|materials|] == materials;
    CollectedIsARing(materials, keys, versions, current);
    if current !in keys {
      return Err(NoCurrentKey);
    }
    return Ok(RawKeyring(keys, current, SortBy(versions, IntLe)));
  }
}
