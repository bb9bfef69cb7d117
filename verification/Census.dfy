/** Counting stored secrets by the key version they need, and the arithmetic an
    operator reads before destroying a key. */
module Census {
  import opened Prelude
  import opened Secrets
  import opened ConnectionModel
  import opened ConnectionTable

  type Counts = map<int, nat>

  function RowsAt(t: Table, v: int): set<Id> {
    set id | id in t && t[id].secretKeyVersion == v
  }

  function VersionsIn(t: Table): set<int> {
    set id | id in t :: t[id].secretKeyVersion
  }

  /** SELECT secret_key_version, count(*) ... GROUP BY secret_key_version. */
  function CensusOf(t: Table): Counts {
    map v | v in VersionsIn(t) :: |RowsAt(t, v)|
  }

  function CountOf(c: Counts, v: int): nat {
    if v in c then c[v] else 0
  }

  function NonCurrent(t: Table, current: int): set<Id> {
    set id | id in t && t[id].secretKeyVersion != current
  }

  /** Rows sealed under versions this process does not hold. */
  function Stranded(t: Table, ring: Keyring): set<Id> {
    set id | id in t && !ring.Has(t[id].secretKeyVersion)
  }

  lemma CountIsExact(t: Table, v: int)
    ensures CountOf(CensusOf(t), v) == |RowsAt(t, v)|
  {
    if v !in VersionsIn(t) {
      assert RowsAt(t, v) == {};
    }
  }

  function SumOf(c: Counts, vs: seq<int>): nat {
    if vs == [] then 0 else CountOf(c, vs[|vs| - 1]) + SumOf(c, vs[..|vs| - 1])
  }

  function RowsAtAny(t: Table, vs: seq<int>): set<Id> {
    set id | id in t && t[id].secretKeyVersion in vs
  }

  lemma SumOfNext(c: Counts, vs: seq<int>, v: int)
    ensures SumOf(c, vs + [v]) == SumOf(c, vs) + CountOf(c, v)
  {
    assert (vs + [v])[..|vs|] == vs;
  }

  lemma OneMoreVersion(t: Table, rest: seq<int>, last: int)
    requires last !in rest
    ensures |RowsAtAny(t, rest + [last])| == |RowsAt(t, last)| + |RowsAtAny(t, rest)|
  {
    assert RowsAtAny(t, rest + [last]) == RowsAt(t, last) + RowsAtAny(t, rest);
    assert RowsAt(t, last) !! RowsAtAny(t, rest);
  }

  /** Adding up the counts of distinct versions counts the rows at any of them. */
  lemma {:induction false} SumCountsRows(t: Table, vs: seq<int>)
    requires StrictlyAscending(vs)
    ensures SumOf(CensusOf(t), vs) == |RowsAtAny(t, vs)|
  {
    hide CensusOf;
    if vs == [] {
      assert RowsAtAny(t, vs) == {};
    } else {
      var last, rest := vs[|vs| - 1], vs[..|vs| - 1];
      SumCountsRows(t, rest);
      CountIsExact(t, last);
      assert vs == rest + [last];
      OneMoreVersion(t, rest, last);
    }
  }

  method Versions(c: Counts) returns (vs: seq<int>)
    ensures StrictlyAscending(vs)
    ensures forall v :: v in vs <==> v in c
  {
    vs := SortedElements(c.Keys);
  }

  lemma AllVersions(t: Table, vs: seq<int>)
    requires forall v :: v in vs <==> v in CensusOf(t)
    ensures RowsAtAny(t, vs) == t.Keys
  {
    forall id | id in t ensures id in RowsAtAny(t, vs) {
      assert t[id].secretKeyVersion in VersionsIn(t);
    }
  }

  /** The census of a table adds up to the table. */
  method Total(c: Counts, ghost t: Table) returns (n: nat)
    requires c == CensusOf(t)
    ensures n == |t|
  {
    n := 0;
    var vs := Versions(c);
    for i := 0 to |vs|
      invariant n == SumOf(c, vs[..i])
    {
      assert vs[..i + 1][..i] == vs[..i];
      n := n + CountOf(c, vs[i]);
    }
    assert vs[..|vs|] == vs;
    SumCountsRows(t, vs);
    AllVersions(t, vs);
    assert |t| == |t.Keys|;
  }

  /** Versions some stored row needs and the keyring does not hold. */
  method Unopenable(c: Counts, ring: Keyring) returns (out: seq<int>)
    ensures StrictlyAscending(out)
    ensures forall v :: v in out <==> v in c && !ring.Has(v)
  {
    var vs := Versions(c);
    out := [];
    for i := 0 to |vs|
      invariant forall v :: v in out <==> v in vs[..i] && !ring.Has(v)
      invariant StrictlyAscending(out)
    {
      assert vs[..i + 1] == vs[..i] + [vs[i]];
      if !ring.Has(vs[i]) {
        AppendAscending(out, vs, i);
        out := out + [vs[i]];
      }
    }
    assert vs[..|vs|] == vs;
  }

  /** Keyring versions no stored row needs; never the current one. */
  method SafeToRemove(c: Counts, ring: Keyring) returns (out: seq<int>)
    ensures StrictlyAscending(out)
    ensures forall v :: v in out <==> ring.Has(v) && v != ring.current && CountOf(c, v) == 0
  {
    out := [];
    for i := 0 to |ring.versions|
      invariant forall v :: v in out <==> v in ring.versions[..i] && v != ring.current && CountOf(c, v) == 0
      invariant StrictlyAscending(out)
    {
      var v := ring.versions[i];
      assert ring.versions[..i + 1] == ring.versions[..i] + [v];
      if v != ring.current && CountOf(c, v) == 0 {
        AppendAscending(out, ring.versions, i);
        out := out + [v];
      }
    }
    assert ring.versions[..|ring.versions|] == ring.versions;
  }

  datatype Plan = Plan(census: Counts, current: int, needRotation: nat, alreadyCurrent: nat,
                       missingVersions: seq<int>, blocked: nat)

  /** The plan's numbers, read off the table itself. */
  ghost predicate PlanDescribes(p: Plan, t: Table, ring: Keyring) {
    && p.census == CensusOf(t) && p.current == ring.current
    && p.needRotation == |NonCurrent(t, ring.current)|
    && p.alreadyCurrent == |RowsAt(t, ring.current)|
    && p.blocked == |Stranded(t, ring)|
    && StrictlyAscending(p.missingVersions)
    && (forall v :: v in p.missingVersions <==> exists id :: id in t && t[id].secretKeyVersion == v && !ring.Has(v))
  }

  method PlanFrom(c: Counts, ring: Keyring, ghost t: Table) returns (p: Plan)
    requires c == CensusOf(t)
    ensures PlanDescribes(p, t, ring)
  {
    var missing := Unopenable(c, ring);
    var need: nat, blocked: nat := 0, 0;
    var vs := Versions(c);
    ghost var counted: seq<int>, stuck: seq<int> := [], [];
    for i := 0 to |vs|
      invariant need == SumOf(c, counted) && blocked == SumOf(c, stuck)
      invariant StrictlyAscending(counted) && StrictlyAscending(stuck)
      invariant forall v :: v in counted <==> v in vs[..i] && v != ring.current
      invariant forall v :: v in stuck <==> v in vs[..i] && !ring.Has(v)
    {
      hide SumOf, CensusOf;
      var v := vs[i];
      assert vs[..i + 1] == vs[..i] + [v];
      if v != ring.current {
        AppendAscending(counted, vs, i);
        need := need + CountOf(c, v);
        SumOfNext(c, counted, v);
        counted := counted + [v];
        if !ring.Has(v) {
          AppendAscending(stuck, vs, i);
          blocked := blocked + CountOf(c, v);
          SumOfNext(c, stuck, v);
          stuck := stuck + [v];
        }
      }
    }
    assert vs[..|vs|] == vs;
    p := Plan(c, ring.current, need, CountOf(c, ring.current), missing, blocked);
    PlanAddsUp(t, ring, vs, counted, stuck);
    CountIsExact(t, ring.current);
  }

  lemma PlanAddsUp(t: Table, ring: Keyring, vs: seq<int>, counted: seq<int>, stuck: seq<int>)
    requires forall v :: v in vs <==> v in CensusOf(t)
    requires StrictlyAscending(counted) && StrictlyAscending(stuck)
    requires forall v :: v in counted <==> v in vs && v != ring.current
    requires forall v :: v in stuck <==> v in vs && !ring.Has(v)
    ensures SumOf(CensusOf(t), counted) == |NonCurrent(t, ring.current)|
    ensures SumOf(CensusOf(t), stuck) == |Stranded(t, ring)|
    ensures forall v :: v in CensusOf(t) <==> exists id :: id in t && t[id].secretKeyVersion == v
  {
    SumCountsRows(t, counted);
    SumCountsRows(t, stuck);
    AllVersions(t, vs);
    forall id | id in t ensures t[id].secretKeyVersion in vs {
      assert id in RowsAtAny(t, vs);
    }
    assert RowsAtAny(t, counted) == NonCurrent(t, ring.current);
    assert RowsAtAny(t, stuck) == Stranded(t, ring);
  }

  // ---------------------------------------------------------------------
  // Removing a key
  // ---------------------------------------------------------------------

  /** What removing a held, non-current version does. Every row's result stays the
      same exactly when no row at that version names a supported algorithm, which a
      count of zero guarantees; and some row that opened stops opening, for want of
      the key, exactly when some row at that version opens. */
  lemma SafeRemovalChangesNothing(t: Table, ring: Keyring, v: int)
    requires ring.Has(v) && v != ring.current
    ensures (forall id :: id in t ==>
               ring.Without(v).Open(t[id].Secret(), SecretAad(id)) == ring.Open(t[id].Secret(), SecretAad(id)))
            <==> forall id :: id in t && t[id].secretKeyVersion == v ==> !SupportedAlgorithm(t[id].secretAlg)
    ensures CountOf(CensusOf(t), v) == 0 ==>
              forall id :: id in t ==>
                ring.Without(v).Open(t[id].Secret(), SecretAad(id)) == ring.Open(t[id].Secret(), SecretAad(id))
    ensures forall id :: id in t && ring.Open(t[id].Secret(), SecretAad(id)).Ok? ==>
              ring.Without(v).Open(t[id].Secret(), SecretAad(id)) ==
              if t[id].secretKeyVersion == v then Err(UnknownKeyVersion) else ring.Open(t[id].Secret(), SecretAad(id))
  {
    CountIsExact(t, v);
    hide CensusOf;
    forall id | id in t
      ensures (ring.Without(v).Open(t[id].Secret(), SecretAad(id)) == ring.Open(t[id].Secret(), SecretAad(id)))
              <==> t[id].secretKeyVersion != v || !SupportedAlgorithm(t[id].secretAlg)
    {
      OneRemoval(t[id].Secret(), SecretAad(id), ring, v);
    }
    forall id | id in t && t[id].secretKeyVersion == v ensures CountOf(CensusOf(t), v) != 0 {
      assert id in RowsAt(t, v);
    }
  }

  lemma OneRemoval(s: Sealed, aad: Aad, ring: Keyring, v: int)
    requires ring.Has(v) && v != ring.current
    ensures (ring.Without(v).Open(s, aad) == ring.Open(s, aad))
            <==> s.keyVersion != v || !SupportedAlgorithm(s.algorithm)
  {
  }

  /** Removing several safe versions one after another is as harmless. */
  lemma {:induction false} SafeRemovals(t: Table, ring: RawKeyring, vs: seq<int>)
    requires ring.Valid() && StrictlyAscending(vs)
    requires forall v :: v in vs ==> ring.Has(v) && v != ring.current && CountOf(CensusOf(t), v) == 0
    ensures WithoutAll(ring, vs).Valid() && WithoutAll(ring, vs).current == ring.current
    ensures forall id :: id in t ==>
              WithoutAll(ring, vs).Open(t[id].Secret(), SecretAad(id)) == ring.Open(t[id].Secret(), SecretAad(id))
    decreases |vs|
  {
    if vs != [] {
      assert vs[0] in vs;
      WithoutIsValid(ring, vs[0]);
      SafeRemovalChangesNothing(t, ring, vs[0]);
      forall v | v in vs[1..]
        ensures ring.Without(vs[0]).Has(v) && v != ring.Without(vs[0]).current && CountOf(CensusOf(t), v) == 0
      {
        assert v in vs && v != vs[0];
      }
      SafeRemovals(t, ring.Without(vs[0]), vs[1..]);
    }
  }

  function WithoutAll(ring: RawKeyring, vs: seq<int>): RawKeyring
    decreases |vs|
  {
    if vs == [] then ring else WithoutAll(ring.Without(vs[0]), vs[1..])
  }

  // ---------------------------------------------------------------------
  // Exit codes
  // ---------------------------------------------------------------------

  method RenderStatus(c: Counts, ring: Keyring) returns (exit: int)
    ensures exit == if exists v :: v in c && !ring.Has(v) then 1 else 0
  {
    var missing := Unopenable(c, ring);
    exit := if |missing| > 0 then 1 else 0;
    if |missing| > 0 { assert missing[0] in missing; }
    else { assert forall v :: v !in missing; }
  }

  function RenderPlan(p: Plan): int {
    if p.blocked > 0 then 1 else 0
  }
}
