/** What a rotation run achieves, and what its report certifies. */
module RotationRuns {
  import opened Prelude
  import opened Secrets
  import opened ConnectionModel
  import opened ConnectionTable
  import opened Census
  import opened Rotation

  // ---------------------------------------------------------------------
  // A run, one row at a time
  // ---------------------------------------------------------------------

  lemma OneStep(t: GoodTable, ids: seq<Id>, k: nat, ring: Keyring, c: Conditions)
    requires k < |ids| && !c.cancelled(k)
    ensures var (after, o) := RotateOne(c.others(k, t), ids[k], ring, c.nonce(k), c.fault(k));
            From(t, ids, k, ring, c) == From(after, ids, k + 1, ring, c).After(o)
  {
  }

  lemma CountedIn(p: Progress, o: Outcome)
    ensures var q := p.After(o);
            && q.table == p.table && q.cancelled == p.cancelled
            && q.rotated == p.rotated + (if o.Rotated? then 1 else 0)
            && q.skipped == p.skipped + (if o.AlreadyCurrent? then 1 else 0)
            && |q.failures| == |p.failures| + (if o.Failed? then 1 else 0)
            && forall f :: f in q.failures ==> f in p.failures || o == Failed(f)
  {
  }

  lemma StopHere(t: GoodTable, ids: seq<Id>, k: nat, ring: Keyring, c: Conditions)
    requires k <= |ids| && (k < |ids| ==> c.cancelled(k))
    ensures From(t, ids, k, ring, c) == Progress(t, 0, 0, [], k < |ids|)
  {
  }

  // ---------------------------------------------------------------------
  // Runs beside any other writers
  // ---------------------------------------------------------------------

  /** Every listed row is counted once, whatever else is going on. */
  lemma {:induction false} EveryRowCountedOnce(t: GoodTable, ids: seq<Id>, k: nat, ring: Keyring, c: Conditions)
    requires k <= |ids|
    ensures var p := From(t, ids, k, ring, c);
            && (!p.cancelled ==> p.rotated + p.skipped + |p.failures| == |ids| - k)
            && (p.cancelled ==> p.rotated + p.skipped + |p.failures| < |ids| - k)
    decreases |ids| - k
  {
    hide From, RotateOne;
    if k < |ids| && !c.cancelled(k) {
      var (after, o) := RotateOne(c.others(k, t), ids[k], ring, c.nonce(k), c.fault(k));
      OneStep(t, ids, k, ring, c);
      EveryRowCountedOnce(after, ids, k + 1, ring, c);
      CountedIn(From(after, ids, k + 1, ring, c), o);
    } else {
      StopHere(t, ids, k, ring, c);
    }
  }

  predicate Balanced(r: Report) {
    r.total == r.alreadyCurrent + r.rotated + |r.failures|
  }

  /** The totals of a finished run balance exactly when the listing and the
      census, taken one after the other, saw equally many rows to rotate. */
  lemma BalancedIff(t: GoodTable, ids: seq<Id>, ring: Keyring, c: Conditions)
    requires IsListing(ids, t, ring.current)
    requires !From(c.between(t), ids, 0, ring, c).cancelled
    ensures Balanced(ReportOf(c.between(t), ring.current, From(c.between(t), ids, 0, ring, c)))
            <==> |NonCurrent(c.between(t), ring.current)| == |NonCurrent(t, ring.current)|
  {
    EveryRowCountedOnce(c.between(t), ids, 0, ring, c);
    ListingSize(ids, t, ring.current);
    SplitByVersion(c.between(t), ring.current);
  }

  /** A draft that a writer still on an older version commits between the two queries
      is counted and never rotated: the totals do not balance. */
  lemma OneInsertUnbalances(id: Id, r: Row, ring: Keyring, c: Conditions)
    requires SchemaHolds(map[id := r]) && r.secretKeyVersion != ring.current
    requires c.between(map[]) == map[id := r]
    ensures IsListing([], map[], ring.current)
    ensures var report := ReportOf(c.between(map[]), ring.current, From(c.between(map[]), [], 0, ring, c));
            report == Report(1, 0, 0, []) && !Balanced(report)
  {
    var t := map[id := r];
    assert t.Keys == {id};
    assert RowsAt(t, ring.current) == {};
    StopHere(c.between(map[]), [], 0, ring, c);
  }

  lemma ListingSize(ids: seq<Id>, t: Table, current: int)
    requires IsListing(ids, t, current)
    ensures |ids| == |NonCurrent(t, current)|
  {
    DistinctSize(ids, NonCurrent(t, current));
  }

  lemma {:induction false} DistinctSize(ids: seq<Id>, s: set<Id>)
    requires StrictlyAscending(ids) && forall id :: id in ids <==> id in s
    ensures |s| == |ids|
  {
    if ids == [] {
      assert s == {};
    } else {
      var rest, last := ids[..|ids| - 1], ids[|ids| - 1];
      assert ids == rest + [last];
      assert last in ids;
      DistinctSize(rest, s - {last});
    }
  }

  lemma SplitByVersion(t: Table, current: int)
    ensures |t| == |RowsAt(t, current)| + |NonCurrent(t, current)|
  {
    assert t.Keys == RowsAt(t, current) + NonCurrent(t, current);
    assert RowsAt(t, current) !! NonCurrent(t, current);
  }

  /** Writers that seal under the same current version: nothing they commit moves
      a row to another version. */
  ghost predicate ShareCurrent(t: Table, t': Table, current: int) {
    forall id :: id in t' && t'[id].secretKeyVersion != current ==>
      id in t && t[id].secretKeyVersion == t'[id].secretKeyVersion
  }

  ghost predicate AllShareCurrent(c: Conditions, current: int) {
    && (forall t: GoodTable :: ShareCurrent(t, c.between(t), current))
    && (forall k: nat, t: GoodTable :: ShareCurrent(t, c.others(k, t), current))
  }

  lemma OthersOnlyHelp(c: Conditions, current: int, k: nat, t: GoodTable)
    requires AllShareCurrent(c, current)
    ensures NonCurrent(c.others(k, t), current) <= NonCurrent(t, current)
    ensures NonCurrent(c.between(t), current) <= NonCurrent(t, current)
  {
    assert ShareCurrent(t, c.others(k, t), current) && ShareCurrent(t, c.between(t), current);
  }

  /** A run that ends with no failure leaves every row on the current version,
      even with other writers at work, as long as they share that version. */
  lemma {:induction false} CleanRunFinishes(t: GoodTable, ids: seq<Id>, k: nat, ring: Keyring, c: Conditions)
    requires k <= |ids| && AllShareCurrent(c, ring.current)
    requires forall id :: id in NonCurrent(t, ring.current) ==> id in ids[k..]
    requires var p := From(t, ids, k, ring, c); !p.cancelled && p.failures == []
    ensures NonCurrent(From(t, ids, k, ring, c).table, ring.current) == {}
    decreases |ids| - k
  {
    hide From, RotateOne, SchemaHolds;
    if k < |ids| && !c.cancelled(k) {
      var u := c.others(k, t);
      OthersOnlyHelp(c, ring.current, k, t);
      OneRowRotates(u, ids[k], ring, c.nonce(k), c.fault(k));
      OneStep(t, ids, k, ring, c);
      var (after, o) := RotateOne(u, ids[k], ring, c.nonce(k), c.fault(k));
      CountedIn(From(after, ids, k + 1, ring, c), o);
      assert ids[k..] == [ids[k]] + ids[k + 1..];
      forall id | id in NonCurrent(after, ring.current) ensures id in ids[k + 1..] {
        assert id in NonCurrent(u, ring.current) && id != ids[k];
      }
      CleanRunFinishes(after, ids, k + 1, ring, c);
    } else {
      StopHere(t, ids, k, ring, c);
    }
  }

  /** Certification: after such a run the versions safe to remove are exactly
      the keyring's other versions. */
  lemma CertifiedRemoval(t: GoodTable, ids: seq<Id>, ring: Keyring, c: Conditions, v: int)
    requires IsListing(ids, t, ring.current) && AllShareCurrent(c, ring.current)
    requires var p := From(c.between(t), ids, 0, ring, c); !p.cancelled && p.failures == []
    requires ring.Has(v)
    ensures var done := From(c.between(t), ids, 0, ring, c).table;
            v != ring.current ==>
              && CountOf(CensusOf(done), v) == 0
              && forall id :: id in done ==>
                   ring.Without(v).Open(done[id].Secret(), SecretAad(id)) == ring.Open(done[id].Secret(), SecretAad(id))
  {
    OthersOnlyHelp(c, ring.current, 0, t);
    CleanRunFinishes(c.between(t), ids, 0, ring, c);
    var done := From(c.between(t), ids, 0, ring, c).table;
    if v != ring.current {
      CountIsExact(done, v);
      assert RowsAt(done, v) <= NonCurrent(done, ring.current);
      SafeRemovalChangesNothing(done, ring, v);
    }
  }

  // ---------------------------------------------------------------------
  // Runs with the table to themselves
  // ---------------------------------------------------------------------

  ghost predicate Alone(c: Conditions) {
    && (forall t: GoodTable :: c.between(t) == t)
    && (forall k: nat, t: GoodTable :: c.others(k, t) == t)
  }

  /** Only rows whose ids are still to come can differ at the end, and those only
      by being re-wrapped: updated_at and every other column never move. */
  lemma {:induction false} RotationOnlyRewraps(t: GoodTable, ids: seq<Id>, k: nat, ring: Keyring, c: Conditions)
    requires k <= |ids| && Alone(c)
    ensures var p := From(t, ids, k, ring, c);
            && p.table.Keys == t.Keys
            && (forall id :: id in t && p.table[id] != t[id] ==>
                  && id in ids[k..] && t[id].secretKeyVersion != ring.current
                  && Openable(ring, id, t[id]) && Rewrapped(ring, id, t[id], p.table[id]))
    decreases |ids| - k
  {
    hide From, RotateOne, SchemaHolds;
    if k == |ids| || c.cancelled(k) {
      StopHere(t, ids, k, ring, c);
    } else {
      assert c.others(k, t) == t;
      OneRowRotates(t, ids[k], ring, c.nonce(k), c.fault(k));
      OneStep(t, ids, k, ring, c);
      var (after, o) := RotateOne(t, ids[k], ring, c.nonce(k), c.fault(k));
      RotationOnlyRewraps(after, ids, k + 1, ring, c);
      var end := From(after, ids, k + 1, ring, c).table;
      assert ids[k..] == [ids[k]] + ids[k + 1..];
      forall id | id in t && end[id] != t[id]
        ensures id in ids[k..] && t[id].secretKeyVersion != ring.current
        ensures Openable(ring, id, t[id]) && Rewrapped(ring, id, t[id], end[id])
      {
        if id == ids[k] && o.Rotated? {
          assert after[id].secretKeyVersion == ring.current;
          assert end[id] == after[id];
        } else {
          assert after[id] == t[id];
        }
      }
    }
  }

  /** A failed row keeps its exact columns to the end of the run. Ascending ids matter:
      a row listed twice could fail first and be rotated later. */
  lemma {:induction false} FailedRowsStay(t: GoodTable, ids: seq<Id>, k: nat, ring: Keyring, c: Conditions)
    requires k <= |ids| && Alone(c) && StrictlyAscending(ids)
    ensures var p := From(t, ids, k, ring, c);
            forall f :: f in p.failures && f.id.Some? ==>
              && f.id.value in ids[k..]
              && (f.id.value in t ==> f.id.value in p.table && p.table[f.id.value] == t[f.id.value])
    decreases |ids| - k
  {
    hide From, RotateOne, SchemaHolds, Openable, Rewrapped;
    if k == |ids| || c.cancelled(k) {
      StopHere(t, ids, k, ring, c);
    } else {
      assert c.others(k, t) == t;
      OneRowRotates(t, ids[k], ring, c.nonce(k), c.fault(k));
      FailuresAreExplained(t, ids[k], ring, c.nonce(k), c.fault(k));
      OneStep(t, ids, k, ring, c);
      var (after, o) := RotateOne(t, ids[k], ring, c.nonce(k), c.fault(k));
      var rest := From(after, ids, k + 1, ring, c);
      FailedRowsStay(after, ids, k + 1, ring, c);
      RotationOnlyRewraps(after, ids, k + 1, ring, c);
      CountedIn(rest, o);
      AheadInList(ids, k);
      forall f | f in rest.After(o).failures && f.id.Some?
        ensures f.id.value in ids[k..]
        ensures f.id.value in t ==> f.id.value in rest.table && rest.table[f.id.value] == t[f.id.value]
      {
        if f in rest.failures {
          assert f.id.value in ids[k + 1..] && f.id.value != ids[k];
        } else {
          assert o == Failed(f) && f.id.value == ids[k] && after == t;
        }
      }
    }
  }

  lemma AheadInList(ids: seq<Id>, k: nat)
    requires k < |ids| && StrictlyAscending(ids)
    ensures ids[k] !in ids[k + 1..] && forall id :: id in ids[k..] <==> id == ids[k] || id in ids[k + 1..]
  {
    assert ids[k..] == [ids[k]] + ids[k + 1..];
    assert forall j :: k + 1 <= j < |ids| ==> ids[j] != ids[k];
  }

  function Changed(t: Table, t': Table): set<Id> {
    set id | id in t && (id !in t' || t'[id] != t[id])
  }

  lemma ChangedMeansMoved(ring: Keyring, id: Id, a: Row, b: Row)
    requires b != a ==> a.secretKeyVersion != ring.current && Rewrapped(ring, id, a, b)
    ensures b != a <==> a.secretKeyVersion != ring.current && b.secretKeyVersion == ring.current
  {
  }

  /** As many rows change as the report counts as rotated: every failure, blank ones
      included, and every skipped row leaves its row as it was. */
  lemma ChangedRowsAreTheRotated(t: GoodTable, ids: seq<Id>, ring: Keyring, c: Conditions)
    requires Alone(c)
    ensures var p := From(t, ids, 0, ring, c); |Changed(t, p.table)| == p.rotated
  {
    RotationOnlyRewraps(t, ids, 0, ring, c);
    EachRotationCounts(t, ids, 0, ring, c);
    hide From, SchemaHolds, Openable, Rewrapped, RawKeyring.Valid;
    var end := From(t, ids, 0, ring, c).table;
    forall id | id in t
      ensures end[id] != t[id] <==> t[id].secretKeyVersion != ring.current && end[id].secretKeyVersion == ring.current
    {
      ChangedMeansMoved(ring, id, t[id], end[id]);
    }
    ChangedSize(t, end, ring.current);
  }

  lemma ChangedSize(t: Table, t': Table, current: int)
    requires t'.Keys == t.Keys
    requires forall id :: id in t ==>
      (t'[id] != t[id] <==> t[id].secretKeyVersion != current && t'[id].secretKeyVersion == current)
    ensures |NonCurrent(t, current)| == |NonCurrent(t', current)| + |Changed(t, t')|
  {
    var before, after, changed := NonCurrent(t, current), NonCurrent(t', current), Changed(t, t');
    forall id ensures id in before <==> id in after || id in changed {
      if id in t { assert id in t'; }
    }
    assert before == after + changed;
    assert after !! changed;
  }

  /** Each rotation takes exactly one row off the old versions. */
  lemma {:induction false} EachRotationCounts(t: GoodTable, ids: seq<Id>, k: nat, ring: Keyring, c: Conditions)
    requires k <= |ids| && Alone(c)
    ensures var p := From(t, ids, k, ring, c);
            |NonCurrent(p.table, ring.current)| == |NonCurrent(t, ring.current)| - p.rotated
    decreases |ids| - k
  {
    hide From, RotateOne, SchemaHolds;
    if k == |ids| || c.cancelled(k) {
      StopHere(t, ids, k, ring, c);
    } else {
      assert c.others(k, t) == t;
      OneRowRotates(t, ids[k], ring, c.nonce(k), c.fault(k));
      OneStep(t, ids, k, ring, c);
      var (after, o) := RotateOne(t, ids[k], ring, c.nonce(k), c.fault(k));
      CountedIn(From(after, ids, k + 1, ring, c), o);
      if o.Rotated? {
        assert NonCurrent(after, ring.current) == NonCurrent(t, ring.current) - {ids[k]};
      }
      EachRotationCounts(after, ids, k + 1, ring, c);
    }
  }

  /** With nobody else writing, the totals of a finished run balance. */
  lemma AloneBalances(t: GoodTable, ids: seq<Id>, ring: Keyring, c: Conditions)
    requires IsListing(ids, t, ring.current) && Alone(c)
    requires !From(t, ids, 0, ring, c).cancelled
    ensures Balanced(ReportOf(t, ring.current, From(t, ids, 0, ring, c)))
  {
    assert c.between(t) == t;
    BalancedIff(t, ids, ring, c);
  }

  ghost predicate NoFaults(c: Conditions) {
    forall k: nat :: c.fault(k) == NoFault
  }

  ghost predicate NeverCancelled(c: Conditions) {
    forall k: nat :: !c.cancelled(k)
  }

  /** The rows among `done` that the ring can open have been re-wrapped and every
      other row is as it was. */
  ghost predicate RotatedAmong(t: Table, t': Table, done: set<Id>, ring: Keyring) {
    && t'.Keys == t.Keys
    && forall id :: id in t ==>
         if id in done && t[id].secretKeyVersion != ring.current && Openable(ring, id, t[id])
         then Rewrapped(ring, id, t[id], t'[id])
         else t'[id] == t[id]
  }

  lemma FaultFreeRow(t: GoodTable, id: Id, ring: Keyring, nonce: Nonce)
    ensures RotatedAmong(t, RotateOne(t, id, ring, nonce, NoFault).0, {id}, ring)
  {
    OneRowRotates(t, id, ring, nonce, NoFault);
  }

  lemma RotatedThen(t: Table, mid: Table, end: Table, id: Id, rest: set<Id>, ring: Keyring)
    requires RotatedAmong(t, mid, {id}, ring) && RotatedAmong(mid, end, rest, ring) && id !in rest
    ensures RotatedAmong(t, end, rest + {id}, ring)
  {
    hide Openable, Rewrapped;
    forall k | k in t
      ensures if k in rest + {id} && t[k].secretKeyVersion != ring.current && Openable(ring, k, t[k])
              then Rewrapped(ring, k, t[k], end[k]) else end[k] == t[k]
    {
      assert k in mid;
    }
  }

  /** A fault-free run that nobody stops re-wraps every listed row the ring can open. */
  lemma {:induction false} FaultFreeRun(t: GoodTable, ids: seq<Id>, k: nat, ring: Keyring, c: Conditions)
    requires k <= |ids| && StrictlyAscending(ids) && Alone(c) && NoFaults(c) && NeverCancelled(c)
    ensures RotatedAmong(t, From(t, ids, k, ring, c).table, Rest(ids, k), ring)
    decreases |ids| - k
  {
    hide From, RotateOne, SchemaHolds;
    if k == |ids| {
      StopHere(t, ids, k, ring, c);
    } else {
      assert c.others(k, t) == t && c.fault(k) == NoFault && !c.cancelled(k);
      FaultFreeRow(t, ids[k], ring, c.nonce(k));
      OneStep(t, ids, k, ring, c);
      var (after, o) := RotateOne(t, ids[k], ring, c.nonce(k), NoFault);
      FaultFreeRun(after, ids, k + 1, ring, c);
      RestShrinks(ids, k);
      RotatedThen(t, after, From(after, ids, k + 1, ring, c).table, ids[k], Rest(ids, k + 1), ring);
      CountedIn(From(after, ids, k + 1, ring, c), o);
    }
  }

  function Rest(ids: seq<Id>, k: nat): set<Id>
    requires k <= |ids|
  {
    set id | id in ids[k..]
  }

  lemma RestShrinks(ids: seq<Id>, k: nat)
    requires k < |ids| && StrictlyAscending(ids)
    ensures Rest(ids, k) == Rest(ids, k + 1) + {ids[k]} && ids[k] !in Rest(ids, k + 1)
  {
    assert forall j :: k + 1 <= j < |ids| ==> ids[j] != ids[k];
    assert ids[k..] == [ids[k]] + ids[k + 1..];
  }

  /** Same version and same plaintext in every row, and every other column too. */
  ghost predicate SameMeaning(a: Table, b: Table, ring: Keyring) {
    && a.Keys == b.Keys
    && forall id :: id in a ==>
         && a[id].secretKeyVersion == b[id].secretKeyVersion
         && ring.Open(a[id].Secret(), SecretAad(id)) == ring.Open(b[id].Secret(), SecretAad(id))
         && a[id] == b[id].WithSecret(a[id].Secret())
  }

  /** One run of the command, over the ids it was given. */
  datatype Attempt = Attempt(ids: seq<Id>, c: Conditions)

  ghost function AfterAttempts(t: GoodTable, attempts: seq<Attempt>, ring: Keyring): GoodTable
    decreases |attempts|
  {
    if attempts == [] then t
    else AfterAttempts(From(t, attempts[0].ids, 0, ring, attempts[0].c).table, attempts[1..], ring)
  }

  /** However many runs, whatever fails in them and wherever they stop: a row is as it was
      or has been re-wrapped once. */
  lemma {:induction false} AttemptsOnlyRewrap(t: GoodTable, attempts: seq<Attempt>, ring: Keyring)
    requires forall a :: a in attempts ==> Alone(a.c)
    ensures var end := AfterAttempts(t, attempts, ring);
            && end.Keys == t.Keys
            && forall id :: id in t && end[id] != t[id] ==>
                 && t[id].secretKeyVersion != ring.current
                 && Openable(ring, id, t[id]) && Rewrapped(ring, id, t[id], end[id])
    decreases |attempts|
  {
    hide From, SchemaHolds, Openable;
    if attempts != [] {
      var a := attempts[0];
      assert a in attempts;
      var next := From(t, a.ids, 0, ring, a.c).table;
      RotationOnlyRewraps(t, a.ids, 0, ring, a.c);
      AttemptsOnlyRewrap(next, attempts[1..], ring);
      var end := AfterAttempts(next, attempts[1..], ring);
      forall id | id in t && end[id] != t[id]
        ensures t[id].secretKeyVersion != ring.current
        ensures Openable(ring, id, t[id]) && Rewrapped(ring, id, t[id], end[id])
      {
        assert id in next;
        if next[id] != t[id] { assert end[id] == next[id]; }
      }
    }
  }

  /** A failure affects one row and a rerun picks up where the last one stopped: after any
      runs at all, a fault-free one ends where a single fault-free run on the first table
      would have. */
  lemma RetriesConverge(t: GoodTable, ids: seq<Id>, attempts: seq<Attempt>, again: seq<Id>, ring: Keyring,
                        last: Conditions, whole: Conditions)
    requires IsListing(ids, t, ring.current) && IsListing(again, AfterAttempts(t, attempts, ring), ring.current)
    requires forall a :: a in attempts ==> Alone(a.c)
    requires Alone(last) && NoFaults(last) && NeverCancelled(last)
    requires Alone(whole) && NoFaults(whole) && NeverCancelled(whole)
    ensures SameMeaning(From(AfterAttempts(t, attempts, ring), again, 0, ring, last).table,
                        From(t, ids, 0, ring, whole).table, ring)
  {
    hide From, AfterAttempts, SchemaHolds, Openable;
    var half := AfterAttempts(t, attempts, ring);
    var resumed, straight := From(half, again, 0, ring, last).table, From(t, ids, 0, ring, whole).table;
    AttemptsOnlyRewrap(t, attempts, ring);
    FaultFreeRun(half, again, 0, ring, last);
    FaultFreeRun(t, ids, 0, ring, whole);
    forall id | id in t
      ensures resumed[id].secretKeyVersion == straight[id].secretKeyVersion
      ensures ring.Open(resumed[id].Secret(), SecretAad(id)) == ring.Open(straight[id].Secret(), SecretAad(id))
      ensures resumed[id] == straight[id].WithSecret(resumed[id].Secret())
    {
      assert id in half;
      assert t[id].secretKeyVersion != ring.current ==> id in NonCurrent(t, ring.current);
      assert half[id].secretKeyVersion != ring.current ==> id in NonCurrent(half, ring.current);
      RewrappedRow(ring, id, t[id], half[id], resumed[id], straight[id]);
    }
  }

  /** The case of one earlier run, cancelled or failing anywhere. */
  lemma CancelledAndResumed(t: GoodTable, ids: seq<Id>, again: seq<Id>, ring: Keyring,
                            first: Conditions, second: Conditions, whole: Conditions)
    requires IsListing(ids, t, ring.current)
    requires Alone(first) && Alone(second) && Alone(whole)
    requires NoFaults(second) && NoFaults(whole) && NeverCancelled(second) && NeverCancelled(whole)
    requires IsListing(again, From(t, ids, 0, ring, first).table, ring.current)
    ensures SameMeaning(From(From(t, ids, 0, ring, first).table, again, 0, ring, second).table,
                        From(t, ids, 0, ring, whole).table, ring)
  {
    hide From, SchemaHolds, SameMeaning, Alone, NoFaults, NeverCancelled, IsListing;
    var once := [Attempt(ids, first)];
    assert once[1..] == [];
    assert AfterAttempts(t, once, ring) == From(t, ids, 0, ring, first).table;
    RetriesConverge(t, ids, once, again, ring, second, whole);
  }

  /** One row across the interrupted and the uninterrupted run: wrapped at most
      once either way, and to the same effect. */
  lemma RewrappedRow(ring: Keyring, id: Id, a: Row, half: Row, resumed: Row, straight: Row)
    requires half == a || (Openable(ring, id, a) && Rewrapped(ring, id, a, half))
    requires a.secretKeyVersion == ring.current ==> half == a
    requires if half.secretKeyVersion != ring.current && Openable(ring, id, half)
             then Rewrapped(ring, id, half, resumed) else resumed == half
    requires if a.secretKeyVersion != ring.current && Openable(ring, id, a)
             then Rewrapped(ring, id, a, straight) else straight == a
    ensures resumed.secretKeyVersion == straight.secretKeyVersion
    ensures ring.Open(resumed.Secret(), SecretAad(id)) == ring.Open(straight.Secret(), SecretAad(id))
    ensures resumed == straight.WithSecret(resumed.Secret())
  {
  }

  /** Running again after a clean run lists nothing and writes nothing. */
  lemma RerunWritesNothing(t: GoodTable, ids: seq<Id>, ring: Keyring, c: Conditions, again: seq<Id>, d: Conditions)
    requires IsListing(ids, t, ring.current) && Alone(c) && Alone(d)
    requires var p := From(t, ids, 0, ring, c); !p.cancelled && p.failures == []
    requires IsListing(again, From(t, ids, 0, ring, c).table, ring.current)
    ensures var done := From(t, ids, 0, ring, c).table;
            && From(done, again, 0, ring, d) == Progress(done, 0, 0, [], false)
            && ReportOf(done, ring.current, From(done, again, 0, ring, d)) == Report(|t|, |t|, 0, [])
  {
    var done := From(t, ids, 0, ring, c).table;
    AloneShares(c, ring.current);
    CleanRunFinishes(t, ids, 0, ring, c);
    ListingSize(again, done, ring.current);
    assert again == [];
    SplitByVersion(done, ring.current);
    RotationOnlyRewraps(t, ids, 0, ring, c);
    assert |done| == |done.Keys| && |t| == |t.Keys|;
  }

  lemma AloneShares(c: Conditions, current: int)
    requires Alone(c)
    ensures AllShareCurrent(c, current)
  {
  }

  // ---------------------------------------------------------------------
  // The plan predicts the run
  // ---------------------------------------------------------------------

  /** Every key this process holds opens the rows that name it, and every stored
      secret names a supported algorithm, or none, as the oldest rows do. */
  ghost predicate KeysOpenTheirRows(t: Table, ring: Keyring) {
    forall id :: id in t ==>
      && SupportedAlgorithm(t[id].secretAlg)
      && (ring.Has(t[id].secretKeyVersion) ==> Openable(ring, id, t[id]))
  }

  function Held(t: Table, ring: Keyring): set<Id> {
    set id | id in t && ring.Has(t[id].secretKeyVersion)
  }

  lemma {:induction false} RunFollowsKeys(t: GoodTable, ids: seq<Id>, k: nat, ring: Keyring, c: Conditions)
    requires k <= |ids| && StrictlyAscending(ids) && Alone(c) && NoFaults(c) && NeverCancelled(c)
    requires KeysOpenTheirRows(t, ring)
    requires Rest(ids, k) <= NonCurrent(t, ring.current)
    ensures var p := From(t, ids, k, ring, c);
            && !p.cancelled && p.skipped == 0
            && p.rotated == |Held(t, ring) * Rest(ids, k)|
            && |p.failures| == |Stranded(t, ring) * Rest(ids, k)|
            && forall f :: f in p.failures ==> f.reason == Some(MissingKeyVersion)
    decreases |ids| - k
  {
    hide From, RotateOne, SchemaHolds, KeysOpenTheirRows, OneRowMoved, Stranded, Held, NonCurrent;
    if k == |ids| {
      StopHere(t, ids, k, ring, c);
      assert Rest(ids, k) == {};
    } else {
      var id := ids[k];
      RestShrinks(ids, k);
      assert id in NonCurrent(t, ring.current);
      assert c.others(k, t) == t && c.fault(k) == NoFault && !c.cancelled(k);
      var (after, o) := RotateOne(t, id, ring, c.nonce(k), NoFault);
      KeyedRow(t, id, ring, c.nonce(k));
      NextRow(t, after, Rest(ids, k + 1), id, ring);
      RunFollowsKeys(after, ids, k + 1, ring, c);
      OneStep(t, ids, k, ring, c);
      CountedIn(From(after, ids, k + 1, ring, c), o);
    }
  }

  lemma NextRow(t: Table, after: Table, rest: set<Id>, id: Id, ring: Keyring)
    requires KeysOpenTheirRows(t, ring) && OneRowMoved(t, after, id, ring)
    requires id !in rest && rest + {id} <= NonCurrent(t, ring.current)
    ensures KeysOpenTheirRows(after, ring) && rest <= NonCurrent(after, ring.current)
    ensures |Held(t, ring) * (rest + {id})|
            == |Held(after, ring) * rest| + (if ring.Has(t[id].secretKeyVersion) then 1 else 0)
    ensures |Stranded(t, ring) * (rest + {id})|
            == |Stranded(after, ring) * rest| + (if ring.Has(t[id].secretKeyVersion) then 0 else 1)
  {
    KeysStillOpen(t, after, id, ring);
    DoneWith(t, after, rest, id, ring);
    forall x | x in rest ensures x in NonCurrent(after, ring.current) {
      assert x in NonCurrent(t, ring.current);
    }
  }

  lemma KeyedRow(t: GoodTable, id: Id, ring: Keyring, nonce: Nonce)
    requires KeysOpenTheirRows(t, ring) && id in NonCurrent(t, ring.current)
    ensures var (after, o) := RotateOne(t, id, ring, nonce, NoFault);
            && OneRowMoved(t, after, id, ring)
            && o == if ring.Has(t[id].secretKeyVersion) then Rotated
                    else Fail(id, t[id].secretKeyVersion, MissingKeyVersion)
  {
    OneRowRotates(t, id, ring, nonce, NoFault);
  }

  /** after is t with at most the row `id` re-wrapped. */
  ghost predicate OneRowMoved(t: Table, after: Table, id: Id, ring: Keyring) {
    && id in t && after.Keys == t.Keys
    && (forall k :: k in t && k != id ==> after[k] == t[k])
    && (if ring.Has(t[id].secretKeyVersion)
        then Rewrapped(ring, id, t[id], after[id]) && SupportedAlgorithm(after[id].secretAlg)
        else after == t)
  }

  lemma KeysStillOpen(t: Table, after: Table, id: Id, ring: Keyring)
    requires KeysOpenTheirRows(t, ring) && OneRowMoved(t, after, id, ring)
    ensures KeysOpenTheirRows(after, ring)
  {
    forall k | k in after
      ensures SupportedAlgorithm(after[k].secretAlg)
      ensures ring.Has(after[k].secretKeyVersion) ==> Openable(ring, k, after[k])
    {
      assert SupportedAlgorithm(t[k].secretAlg);
    }
  }

  lemma Peel(a: set<Id>, rest: set<Id>, id: Id)
    requires id !in rest
    ensures |a * (rest + {id})| == |a * rest| + (if id in a then 1 else 0)
  {
    if id in a {
      assert a * (rest + {id}) == a * rest + {id};
    } else {
      assert a * (rest + {id}) == a * rest;
    }
  }

  lemma SameOutside(t: Table, after: Table, rest: set<Id>, id: Id, ring: Keyring)
    requires id !in rest && after.Keys == t.Keys && forall k :: k in t && k != id ==> after[k] == t[k]
    ensures Held(after, ring) * rest == Held(t, ring) * rest
    ensures Stranded(after, ring) * rest == Stranded(t, ring) * rest
  {
  }

  /** Dealing with one row takes it out of the counts. */
  lemma DoneWith(t: Table, after: Table, rest: set<Id>, id: Id, ring: Keyring)
    requires id !in rest && OneRowMoved(t, after, id, ring)
    ensures |Held(t, ring) * (rest + {id})|
            == |Held(after, ring) * rest| + (if ring.Has(t[id].secretKeyVersion) then 1 else 0)
    ensures |Stranded(t, ring) * (rest + {id})|
            == |Stranded(after, ring) * rest| + (if ring.Has(t[id].secretKeyVersion) then 0 else 1)
  {
    Peel(Held(t, ring), rest, id);
    Peel(Stranded(t, ring), rest, id);
    SameOutside(t, after, rest, id, ring);
  }

  /** On a table nobody else touches, with working keys and no failures, the
      plan's numbers are the run's numbers. */
  lemma PlanPredictsRun(t: GoodTable, ids: seq<Id>, ring: Keyring, c: Conditions, plan: Plan)
    requires IsListing(ids, t, ring.current) && Alone(c) && NoFaults(c) && NeverCancelled(c)
    requires KeysOpenTheirRows(t, ring) && PlanDescribes(plan, t, ring)
    ensures var r := ReportOf(t, ring.current, From(t, ids, 0, ring, c));
            && !From(t, ids, 0, ring, c).cancelled
            && r.total == |t| && r.alreadyCurrent == plan.alreadyCurrent
            && r.rotated == plan.needRotation - plan.blocked
            && |r.failures| == plan.blocked
            && (forall f :: f in r.failures ==> f.reason == Some(MissingKeyVersion))
  {
    assert ids[0..] == ids;
    RunFollowsKeys(t, ids, 0, ring, c);
    assert Stranded(t, ring) * Rest(ids, 0) == Stranded(t, ring);
    assert Held(t, ring) * Rest(ids, 0) == NonCurrent(t, ring.current) - Stranded(t, ring);
    assert Stranded(t, ring) <= NonCurrent(t, ring.current);
  }

  // ---------------------------------------------------------------------
  // What the report and the exit code say of a run
  // ---------------------------------------------------------------------

  /** The table the run has left behind it when row k's turn comes. */
  function TableAt(t: GoodTable, ids: seq<Id>, k: nat, ring: Keyring, c: Conditions): GoodTable
    requires k <= |ids|
  {
    if k == 0 then t
    else RotateOne(c.others(k - 1, TableAt(t, ids, k - 1, ring, c)), ids[k - 1], ring, c.nonce(k - 1), c.fault(k - 1)).0
  }

  /** The table row k is found in, after whatever others have committed. */
  function FoundAt(t: GoodTable, ids: seq<Id>, k: nat, ring: Keyring, c: Conditions): GoodTable
    requires k <= |ids|
  {
    c.others(k, TableAt(t, ids, k, ring, c))
  }

  function OutcomeAt(t: GoodTable, ids: seq<Id>, k: nat, ring: Keyring, c: Conditions): Outcome
    requires k < |ids|
  {
    RotateOne(FoundAt(t, ids, k, ring, c), ids[k], ring, c.nonce(k), c.fault(k)).1
  }

  function Outcomes(t: GoodTable, ids: seq<Id>, k: nat, stop: nat, ring: Keyring, c: Conditions): seq<Outcome>
    requires k <= stop <= |ids|
  {
    seq(stop - k, i requires 0 <= i < stop - k => OutcomeAt(t, ids, k + i, ring, c))
  }

  ghost predicate Tallies(p: Progress, os: seq<Outcome>) {
    && p.rotated == multiset(os)[Rotated] && p.skipped == multiset(os)[AlreadyCurrent]
    && p.rotated + p.skipped + |p.failures| == |os|
    && FailuresOf(os) == p.failures
  }

  function FailuresOf(os: seq<Outcome>): seq<Failure> {
    if os == [] then []
    else (if os[0].Failed? then [os[0].failure] else []) + FailuresOf(os[1..])
  }

  lemma TallyMore(p: Progress, o: Outcome, rest: seq<Outcome>)
    requires Tallies(p, rest)
    ensures Tallies(p.After(o), [o] + rest)
  {
    assert ([o] + rest)[1..] == rest;
    assert multiset([o] + rest) == multiset{o} + multiset(rest);
  }

  lemma NothingTallied(t: GoodTable, cancelled: bool)
    ensures Tallies(Progress(t, 0, 0, [], cancelled), [])
  {
  }

  /** The run stops before row `stop`, or not at all. */
  ghost predicate StopsAt(c: Conditions, k: nat, stop: nat, n: nat) {
    && k <= stop <= n
    && (forall j :: k <= j < stop ==> !c.cancelled(j))
    && (stop < n ==> c.cancelled(stop))
  }

  lemma NextTable(t: GoodTable, ids: seq<Id>, k: nat, ring: Keyring, c: Conditions)
    requires k < |ids|
    ensures RotateOne(c.others(k, TableAt(t, ids, k, ring, c)), ids[k], ring, c.nonce(k), c.fault(k))
            == (TableAt(t, ids, k + 1, ring, c), OutcomeAt(t, ids, k, ring, c))
  {
    hide RotateOne, SchemaHolds;
  }

  lemma NextOutcome(t: GoodTable, ids: seq<Id>, k: nat, stop: nat, ring: Keyring, c: Conditions)
    requires k < stop <= |ids|
    ensures Outcomes(t, ids, k, stop, ring, c) ==
            [OutcomeAt(t, ids, k, ring, c)] + Outcomes(t, ids, k + 1, stop, ring, c)
  {
    hide OutcomeAt;
  }

  /** The report tallies the outcomes of the rows up to where the run stopped, one by one,
      failures in their order; the table is the one they left. */
  lemma {:induction false} ReportIsTheTally(t: GoodTable, ids: seq<Id>, k: nat, stop: nat, ring: Keyring, c: Conditions)
    requires StopsAt(c, k, stop, |ids|)
    ensures var p := From(TableAt(t, ids, k, ring, c), ids, k, ring, c);
            && Tallies(p, Outcomes(t, ids, k, stop, ring, c))
            && p.table == TableAt(t, ids, stop, ring, c) && (p.cancelled <==> stop < |ids|)
    decreases |ids| - k
  {
    hide From, RotateOne, SchemaHolds, Tallies, TableAt, OutcomeAt, Outcomes;
    var now := TableAt(t, ids, k, ring, c);
    if k == stop {
      StopHere(now, ids, k, ring, c);
      NothingTallied(now, k < |ids|);
      NoOutcomes(t, ids, k, ring, c);
    } else {
      OneStep(now, ids, k, ring, c);
      NextTable(t, ids, k, ring, c);
      ReportIsTheTally(t, ids, k + 1, stop, ring, c);
      var rest := From(TableAt(t, ids, k + 1, ring, c), ids, k + 1, ring, c);
      TallyMore(rest, OutcomeAt(t, ids, k, ring, c), Outcomes(t, ids, k + 1, stop, ring, c));
      CountedIn(rest, OutcomeAt(t, ids, k, ring, c));
      NextOutcome(t, ids, k, stop, ring, c);
    }
  }

  lemma NoOutcomes(t: GoodTable, ids: seq<Id>, k: nat, ring: Keyring, c: Conditions)
    requires k <= |ids|
    ensures Outcomes(t, ids, k, k, ring, c) == []
  {
  }

  lemma {:induction false} NoFailuresIff(os: seq<Outcome>)
    ensures FailuresOf(os) == [] <==> forall i :: 0 <= i < |os| ==> !os[i].Failed?
  {
    if os != [] {
      NoFailuresIff(os[1..]);
      if forall i :: 0 <= i < |os| ==> !os[i].Failed? {
        assert forall i :: 0 <= i < |os[1..]| ==> os[1..][i] == os[i + 1];
      } else {
        var i :| 0 <= i < |os| && os[i].Failed?;
        if i > 0 { assert os[1..][i - 1] == os[i]; }
      }
    }
  }

  lemma {:induction false} SomewhereItStops(c: Conditions, k: nat, n: nat) returns (stop: nat)
    requires k <= n
    ensures StopsAt(c, k, stop, n)
    decreases n - k
  {
    if k == n || c.cancelled(k) {
      stop := k;
    } else {
      stop := SomewhereItStops(c, k + 1, n);
    }
  }

  function RenderRotation(r: Report, failed: bool): int {
    if failed || !r.Complete() then 1 else 0
  }

  /** Whatever the conditions: exit 0 if and only if the run was stopped before no row and
      no row failed, for whatever reason or for none; a run error is always exit 1. */
  lemma ExitIsZeroIff(u: Table, t: GoodTable, ids: seq<Id>, ring: Keyring, c: Conditions)
    ensures var p := From(t, ids, 0, ring, c);
            var exit := RenderRotation(ReportOf(u, ring.current, p), p.cancelled);
            && (exit == 0 || exit == 1)
            && (exit == 0 <==> forall k :: 0 <= k < |ids| ==> !c.cancelled(k) && !OutcomeAt(t, ids, k, ring, c).Failed?)
    ensures forall r: Report :: RenderRotation(r, true) == 1
  {
    hide From, OutcomeAt;
    var stop := SomewhereItStops(c, 0, |ids|);
    ReportIsTheTally(t, ids, 0, stop, ring, c);
    var os := Outcomes(t, ids, 0, stop, ring, c);
    NoFailuresIff(os);
    var p := From(t, ids, 0, ring, c);
    assert TableAt(t, ids, 0, ring, c) == t;
    if stop == |ids| {
      assert forall k :: 0 <= k < |ids| ==> os[k] == OutcomeAt(t, ids, k, ring, c);
    }
  }

  /** What it takes for a row not to fail, on the table it is found in: one that is due
      must open, and nothing may go wrong with it; one that is not need only be read and
      its transaction closed. */
  lemma RowIsFineIff(t: GoodTable, ids: seq<Id>, k: nat, ring: Keyring, c: Conditions)
    requires k < |ids|
    ensures !OutcomeAt(t, ids, k, ring, c).Failed? <==>
            var found := FoundAt(t, ids, k, ring, c);
            if Due(found, ids[k], ring) then c.fault(k).NoFault? && Openable(ring, ids[k], found[ids[k]])
            else Reads(c.fault(k)) && !c.fault(k).CommitFails?
  {
    OneRowRotates(FoundAt(t, ids, k, ring, c), ids[k], ring, c.nonce(k), c.fault(k));
    hide RotateOne, FoundAt, Rewrapped, Openable;
  }

  /** The command: rotate, and exit by what came of it. An exit of 0, beside writers that
      share the current version, leaves no row on any other. */
  method SecretsRotate(r: Rotator, c: Conditions, query: QueryFault) returns (exit: int, ghost ids: seq<Id>)
    modifies r
    ensures exit == 0 || exit == 1
    ensures !query.NoQueryFault? ==> exit == 1
    ensures query.NoQueryFault? ==> IsListing(ids, old(r.rows), r.ring.current)
    ensures query.NoQueryFault? ==>
              (exit == 0 <==> forall k :: 0 <= k < |ids| ==>
                 !c.cancelled(k) && !OutcomeAt(c.between(old(r.rows)), ids, k, r.ring, c).Failed?)
    ensures exit == 0 && AllShareCurrent(c, r.ring.current) ==> NonCurrent(r.rows, r.ring.current) == {}
  {
    hide From, OutcomeAt, SchemaHolds;
    ghost var before := r.rows;
    var report, failed;
    report, failed, ids := r.Rotate(c, query);
    exit := RenderRotation(report, failed);
    if query.NoQueryFault? {
      ghost var t := c.between(before);
      ExitIsZeroIff(t, t, ids, r.ring, c);
      if exit == 0 && AllShareCurrent(c, r.ring.current) {
        OthersOnlyHelp(c, r.ring.current, 0, before);
        CleanRunFinishes(t, ids, 0, r.ring, c);
      }
    }
  }

  /** A dry run exits 1 exactly when some row needs a key this process does not hold. */
  lemma PlanExitIff(p: Plan, t: Table, ring: Keyring)
    requires PlanDescribes(p, t, ring)
    ensures RenderPlan(p) == if exists id :: id in t && t[id].secretKeyVersion !in ring.keys then 1 else 0
  {
    if id :| id in t && t[id].secretKeyVersion !in ring.keys {
      assert id in Stranded(t, ring);
    } else {
      assert Stranded(t, ring) == {};
    }
  }

  /** ... and status, dry run and rotation exit alike. */
  lemma ExitCodesAgree(t: GoodTable, ids: seq<Id>, ring: Keyring, c: Conditions, plan: Plan)
    requires IsListing(ids, t, ring.current) && Alone(c) && NoFaults(c) && NeverCancelled(c)
    requires KeysOpenTheirRows(t, ring) && PlanDescribes(plan, t, ring)
    ensures var p := From(t, ids, 0, ring, c);
            && RenderRotation(ReportOf(t, ring.current, p), p.cancelled) == RenderPlan(plan)
            && (RenderPlan(plan) == 1 <==> exists v :: v in CensusOf(t) && !ring.Has(v))
  {
    PlanPredictsRun(t, ids, ring, c, plan);
    if id :| id in Stranded(t, ring) {
      assert t[id].secretKeyVersion in VersionsIn(t);
    } else {
      assert Stranded(t, ring) == {};
      forall v | v in CensusOf(t) ensures ring.Has(v) {
        var id :| id in t && t[id].secretKeyVersion == v;
        assert id !in Stranded(t, ring);
      }
    }
  }
}
