/** Master-key rotation: re-seal every stored credential under the current key,
    one row per transaction, and report what happened. */
module Rotation {
  import opened Prelude
  import opened Secrets
  import opened ConnectionModel
  import opened ConnectionTable
  import opened Census

  type GoodTable = t: Table | SchemaHolds(t) witness map[]

  datatype Reason = MissingKeyVersion | CannotOpenRow | WriteLost | ReadFailed | WriteFailed | SealFailed

  /** One line of the report. Left blank it names no row and gives no reason. */
  datatype Failure = Failure(id: Option<Id>, keyVersion: int, reason: Option<Reason>)

  const BLANK := Failure(None, 0, None)

  function Fail(id: Id, keyVersion: int, reason: Reason): Outcome {
    Failed(Failure(Some(id), keyVersion, Some(reason)))
  }

  datatype Outcome = Rotated | AlreadyCurrent | Failed(failure: Failure)

  /** What the database or the entropy source does to one row's transaction. One that
      cannot even begin, for want of a connection or because the context was cancelled
      just then, never runs the code that fills the failure in. */
  datatype Fault = NoFault | BeginFails | ReadFails | SealFails | WriteFails | CommitFails

  /** Everything about a run the rotator does not decide. `others` is what the
      other processes commit just before the k-th row, `between` what they commit
      between the listing and the census. */
  datatype Conditions = Conditions(
    nonce: nat -> Nonce,
    fault: nat -> Fault,
    cancelled: nat -> bool,
    between: GoodTable -> GoodTable,
    others: (nat, GoodTable) -> GoodTable)

  /** Which of the two queries before the loop the database refuses, if any. */
  datatype QueryFault = NoQueryFault | ListFails | CensusFails

  datatype Report = Report(total: int, alreadyCurrent: int, rotated: int, failures: seq<Failure>) {
    predicate Complete() { |failures| == 0 }
  }

  // ---------------------------------------------------------------------
  // One row
  // ---------------------------------------------------------------------

  lemma WrapKeepsSchema(t: GoodTable, id: Id, ring: Keyring, plaintext: string, nonce: Nonce)
    requires id in t && plaintext != ""
    ensures SchemaHolds(t[id := t[id].WithSecret(ring.Seal(plaintext, SecretAad(id), nonce).value)])
  {
  }

  /** The table and the outcome one row's transaction leaves behind. */
  function RotateOne(t: GoodTable, id: Id, ring: Keyring, nonce: Nonce, fault: Fault): (GoodTable, Outcome) {
    if fault.BeginFails? then (t, Failed(BLANK))
    else if fault.ReadFails? then (t, Fail(id, 0, ReadFailed))
    else if id !in t then (t, if fault.CommitFails? then Fail(id, 0, WriteFailed) else AlreadyCurrent)
    else
      var v := t[id].secretKeyVersion;
      if v == ring.current then
        (t, if fault.CommitFails? then Fail(id, v, WriteFailed) else AlreadyCurrent)
      else match ring.Open(t[id].Secret(), SecretAad(id))
        case Err(e) => (t, Fail(id, v, if e.UnknownKeyVersion? then MissingKeyVersion else CannotOpenRow))
        case Ok(p) =>
          if fault.SealFails? || p == "" then (t, Fail(id, v, SealFailed))
          else if fault.WriteFails? || fault.CommitFails? then (t, Fail(id, v, WriteFailed))
          else
            WrapKeepsSchema(t, id, ring, p, nonce);
            (t[id := t[id].WithSecret(ring.Seal(p, SecretAad(id), nonce).value)], Rotated)
  }

  function Opening(ring: Keyring, id: Id, r: Row): Result<string, OpenError> {
    ring.Open(r.Secret(), SecretAad(id))
  }

  /** Whether rotation can move this row: the ring opens it to something. */
  predicate Openable(ring: Keyring, id: Id, r: Row) {
    Opening(ring, id, r).Ok? && Opening(ring, id, r).value != ""
  }

  /** b is a re-wrapped: every column but the four secret ones is the same, the
      key version is current, and the ring opens both to the same plaintext. */
  ghost predicate Rewrapped(ring: Keyring, id: Id, a: Row, b: Row) {
    && b == a.WithSecret(b.Secret())
    && b.secretKeyVersion == ring.current
    && ring.Open(b.Secret(), SecretAad(id)) == ring.Open(a.Secret(), SecretAad(id))
  }

  /** The row is there and on another version than the current one. */
  predicate Due(t: Table, id: Id, ring: Keyring) {
    id in t && t[id].secretKeyVersion != ring.current
  }

  /** The transaction got as far as reading. */
  predicate Reads(fault: Fault) { !fault.BeginFails? && !fault.ReadFails? }

  lemma WrappedRow(id: Id, r: Row, ring: Keyring, nonce: Nonce)
    requires Openable(ring, id, r)
    ensures Rewrapped(ring, id, r,
                      r.WithSecret(ring.Seal(Opening(ring, id, r).value, SecretAad(id), nonce).value))
  {
    var p := Opening(ring, id, r).value;
    var b := r.WithSecret(ring.Seal(p, SecretAad(id), nonce).value);
    assert b.Secret() == ring.Seal(p, SecretAad(id), nonce).value;
    assert ring.Open(b.Secret(), SecretAad(id)) == Ok(p);
  }

  /** A rotated row is re-wrapped and nothing else moves; in every other outcome
      the table is exactly what it was. */
  lemma OneRowRotates(t: GoodTable, id: Id, ring: Keyring, nonce: Nonce, fault: Fault)
    ensures var (after, o) := RotateOne(t, id, ring, nonce, fault);
            && (o.Rotated? <==> fault.NoFault? && Due(t, id, ring) && Openable(ring, id, t[id]))
            && (o.Rotated? ==>
                  && after.Keys == t.Keys && Rewrapped(ring, id, t[id], after[id])
                  && forall k :: k in t && k != id ==> after[k] == t[k])
            && (!o.Rotated? ==> after == t)
            && (o.AlreadyCurrent? <==> Reads(fault) && !fault.CommitFails? && !Due(t, id, ring))
  {
    if Due(t, id, ring) && Openable(ring, id, t[id]) { WrappedRow(id, t[id], ring, nonce); }
    hide RawKeyring.Open, RawKeyring.Seal, RawKeyring.Valid, SchemaHolds, Row.WithSecret, Row.Secret, Rewrapped;
  }

  /** Rotating one row with nothing in the way is one write. */
  lemma RotatedRow(t: GoodTable, id: Id, ring: Keyring, nonce: Nonce)
    requires Due(t, id, ring) && Openable(ring, id, t[id])
    ensures var sealed := ring.Seal(Opening(ring, id, t[id]).value, SecretAad(id), nonce).value;
            var after := t[id := t[id].WithSecret(sealed)];
            && RotateOne(t, id, ring, nonce, NoFault).0 == after
            && Rewrapped(ring, id, t[id], after[id])
  {
    WrappedRow(id, t[id], ring, nonce);
    hide RawKeyring.Open, RawKeyring.Seal, RawKeyring.Valid, SchemaHolds, Row.WithSecret, Row.Secret, Rewrapped;
  }

  lemma MissingKey(id: Id, r: Row, ring: Keyring)
    ensures Opening(ring, id, r) == Err(UnknownKeyVersion) <==>
            !ring.Has(r.secretKeyVersion) && SupportedAlgorithm(r.secretAlg)
  {
  }

  /** Which failure, for every fault: each reason exactly when its cause is there, under
      the version the row had when it was read; and the failure names its row if and only
      if the transaction began. */
  lemma FailuresAreExplained(t: GoodTable, id: Id, ring: Keyring, nonce: Nonce, fault: Fault)
    ensures var o := RotateOne(t, id, ring, nonce, fault).1;
            var due := Due(t, id, ring);
            var v := if Reads(fault) && id in t then t[id].secretKeyVersion else 0;
            && (o == Fail(id, v, ReadFailed) <==> fault.ReadFails?)
            && (o == Fail(id, v, MissingKeyVersion) <==>
                  Reads(fault) && due && !ring.Has(v) && SupportedAlgorithm(t[id].secretAlg))
            && (o == Fail(id, v, CannotOpenRow) <==>
                  Reads(fault) && due && Opening(ring, id, t[id]).Err? &&
                  Opening(ring, id, t[id]) != Err(UnknownKeyVersion))
            && (o == Fail(id, v, SealFailed) <==>
                  Reads(fault) && due && Opening(ring, id, t[id]).Ok? &&
                  (fault.SealFails? || !Openable(ring, id, t[id])))
            && (o == Fail(id, v, WriteFailed) <==>
                  if due then (fault.WriteFails? || fault.CommitFails?) && Openable(ring, id, t[id])
                  else fault.CommitFails?)
            && (o.Failed? ==>
                  && (o.failure.id.Some? <==> !fault.BeginFails?)
                  && (o.failure.id.Some? ==> o.failure.id == Some(id) && o.failure.keyVersion == v)
                  && o.failure.reason != Some(WriteLost))
            && (o == Failed(BLANK) <==> fault.BeginFails?)
  {
    if id in t { MissingKey(id, t[id], ring); }
    hide RawKeyring.Open, RawKeyring.Seal, RawKeyring.Valid, RawKeyring.Has, SupportedAlgorithm, SchemaHolds,
         Row.WithSecret, Row.Secret;
  }

  // ---------------------------------------------------------------------
  // The run
  // ---------------------------------------------------------------------

  ghost predicate IsListing(ids: seq<Id>, t: Table, current: int) {
    && StrictlyAscending(ids)
    && forall id :: id in ids <==> id in NonCurrent(t, current)
  }

  datatype Progress = Progress(table: GoodTable, rotated: nat, skipped: nat, failures: seq<Failure>, cancelled: bool) {
    function After(o: Outcome): Progress {
      match o
      case Rotated => this.(rotated := rotated + 1)
      case AlreadyCurrent => this.(skipped := skipped + 1)
      case Failed(f) => this.(failures := [f] + failures)
    }
  }

  /** What processing ids[k..] leaves behind, starting from t. */
  function From(t: GoodTable, ids: seq<Id>, k: nat, ring: Keyring, c: Conditions): Progress
    requires k <= |ids|
    decreases |ids| - k
  {
    if k == |ids| then Progress(t, 0, 0, [], false)
    else if c.cancelled(k) then Progress(t, 0, 0, [], true)
    else
      var (after, o) := RotateOne(c.others(k, t), ids[k], ring, c.nonce(k), c.fault(k));
      From(after, ids, k + 1, ring, c).After(o)
  }

  /** The report of a run whose census was taken on t. */
  function ReportOf(t: Table, current: int, p: Progress): Report {
    Report(|t|, |RowsAt(t, current)| + p.skipped, p.rotated, p.failures)
  }

  function Count(r: Report, o: Outcome): Report {
    match o
    case Rotated => r.(rotated := r.rotated + 1)
    case AlreadyCurrent => r.(alreadyCurrent := r.alreadyCurrent + 1)
    case Failed(f) => r.(failures := r.failures + [f])
  }

  /** What a report will have become once the rest of the run is counted in. */
  function Finished(r: Report, rest: Progress): Report {
    Report(r.total, r.alreadyCurrent + rest.skipped, r.rotated + rest.rotated, r.failures + rest.failures)
  }

  lemma CountNext(r: Report, rest: Progress, o: Outcome)
    ensures Finished(Count(r, o), rest) == Finished(r, rest.After(o))
    ensures rest.After(o).table == rest.table && rest.After(o).cancelled == rest.cancelled
  {
    if o.Failed? {
      assert r.failures + [o.failure] + rest.failures == r.failures + ([o.failure] + rest.failures);
    }
  }

  lemma AllIds(sorted: seq<int>, ids: set<Id>)
    requires forall x :: x in sorted ==> x in ids
    ensures forall i :: 0 <= i < |sorted| ==> sorted[i] >= 0
  {
    forall i | 0 <= i < |sorted| ensures sorted[i] >= 0 {
      assert sorted[i] in sorted;
    }
  }

  class Rotator {
    var rows: GoodTable
    const ring: Keyring

    constructor (db: GoodTable, ring: Keyring)
      ensures rows == db && this.ring == ring
    {
      rows := db;
      this.ring := ring;
    }

    /** One row, in its own transaction: read under the row lock, open, seal,
        write behind a version guard, commit. */
    method RotateRow(id: Id, nonce: Nonce, fault: Fault) returns (outcome: Outcome)
      modifies this
      ensures (rows, outcome) == RotateOne(old(rows), id, ring, nonce, fault)
    {
      var before := rows;
      var observed := 0;
      var committed := !fault.CommitFails?;
      if fault.BeginFails? {
        return Failed(BLANK);
      }
      if fault.ReadFails? {
        return Fail(id, 0, ReadFailed);
      }
      if id !in rows {
        outcome := AlreadyCurrent;
      } else {
        observed := rows[id].secretKeyVersion;
        var sealed := rows[id].Secret();
        if observed == ring.current {
          outcome := AlreadyCurrent;
        } else {
          var result := ring.Open(sealed, SecretAad(id));
          if result.Err? {
            return Fail(id, observed, if result.error.UnknownKeyVersion? then MissingKeyVersion else CannotOpenRow);
          }
          var again := ring.Seal(result.value, SecretAad(id), nonce);
          if fault.SealFails? || again.Err? {
            return Fail(id, observed, SealFailed);
          }
          GuardedWrite(rows, id, ring, result.value, nonce);
          var res := Execute(rows, ReSeal(id, observed, again.value));
          if fault.WriteFails? || !res.Updated? {
            return Fail(id, observed, WriteFailed);
          }
          if res.count != 1 {
            return Fail(id, observed, WriteLost);
          }
          rows := res.table;
          outcome := Rotated;
        }
      }
      if !committed {
        rows := before;
        outcome := Fail(id, observed, WriteFailed);
      }
    }

    /** Every row not on the current version, in id order, one after another. A run
        whose listing or census fails rotates nothing and reports nothing; `failed`
        is the error of the run itself, that or a cancellation. */
    method Rotate(c: Conditions, query: QueryFault) returns (report: Report, failed: bool, ghost ids: seq<Id>)
      modifies this
      ensures !query.NoQueryFault? ==>
                && failed && report == Report(0, 0, 0, [])
                && rows == if query.ListFails? then old(rows) else c.between(old(rows))
      ensures query.NoQueryFault? ==>
                && IsListing(ids, old(rows), ring.current)
                && var p := From(c.between(old(rows)), ids, 0, ring, c);
                   && rows == p.table && failed == p.cancelled
                   && report == ReportOf(c.between(old(rows)), ring.current, p)
    {
      hide From, SchemaHolds, NonCurrent, CensusOf;
      ids := [];
      if query.ListFails? {
        return Report(0, 0, 0, []), true, [];
      }
      var sorted := SortedElements(NonCurrent(rows, ring.current));
      AllIds(sorted, NonCurrent(rows, ring.current));
      var list: seq<Id> := sorted;
      ids := list;
      rows := c.between(rows);
      if query.CensusFails? {
        return Report(0, 0, 0, []), true, ids;
      }
      var census := CensusOf(rows);
      var total := Total(census, rows);
      CountIsExact(rows, ring.current);
      report, failed := EachRow(list, c, Report(total, CountOf(census, ring.current), 0, []));
    }

    method EachRow(list: seq<Id>, c: Conditions, opening: Report) returns (report: Report, interrupted: bool)
      modifies this
      ensures var p := From(old(rows), list, 0, ring, c);
              rows == p.table && interrupted == p.cancelled && report == Finished(opening, p)
    {
      hide RotateOne, SchemaHolds;
      report, interrupted := opening, false;
      ghost var whole := From(rows, list, 0, ring, c);
      ghost var rest := whole;
      var k := 0;
      while k < |list|
        invariant 0 <= k <= |list|
        invariant rest == From(rows, list, k, ring, c)
        invariant rest.table == whole.table && rest.cancelled == whole.cancelled
        invariant Finished(report, rest) == Finished(opening, whole)
      {
        if c.cancelled(k) {
          interrupted := true;
          return;
        }
        rows := c.others(k, rows);
        var outcome := RotateRow(list[k], c.nonce(k), c.fault(k));
        rest := From(rows, list, k + 1, ring, c);
        CountNext(report, rest, outcome);
        report := Count(report, outcome);
        k := k + 1;
      }
    }
  }

  /** The guarded write under the lock hits exactly the row that was read. */
  lemma GuardedWrite(t: GoodTable, id: Id, ring: Keyring, plaintext: string, nonce: Nonce)
    requires id in t
    ensures plaintext != "" ==>
              var sealed := ring.Seal(plaintext, SecretAad(id), nonce).value;
              Execute(t, ReSeal(id, t[id].secretKeyVersion, sealed)) == Updated(t[id := t[id].WithSecret(sealed)], 1)
  {
    if plaintext != "" {
      var sealed := ring.Seal(plaintext, SecretAad(id), nonce).value;
      var s := ReSeal(id, t[id].secretKeyVersion, sealed);
      WrapKeepsSchema(t, id, ring, plaintext, nonce);
      assert UpdateSeen(t, s, t.Keys) == t[id := t[id].WithSecret(sealed)];
      assert Affected(t, s, t.Keys) == {id};
    }
  }
}
