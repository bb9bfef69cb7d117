/** The repository: every write is a transaction over the connections table that
    either commits all of its statements or leaves the table as it was. */
module Repository {
  import opened Prelude
  import opened Secrets
  import opened ConnectionModel
  import opened ConnectionTable

  /** Where the database gives out during one call, if it does. */
  datatype Outage = NoOutage | AtStatement(k: nat) | AtCommit

  // ---------------------------------------------------------------------
  // What each operation is meant to leave behind
  // ---------------------------------------------------------------------

  /** The workspace's incumbents retired and, when `id` is a draft, `id` in service. */
  function AfterActivation(t: Table, id: Id, workspaceId: Id, now: Time): Table {
    map k | k in t ::
      if k == id then (if t[k].status.Draft? then Promote(t[k], now) else t[k])
      else if ActiveIn(t[k], workspaceId) then Retire(t[k], now)
      else t[k]
  }

  /** Another workspace's slot that this activation would not free. */
  predicate SlotTakenElsewhere(t: Table, id: Id, workspaceId: Id) {
    && id in t && t[id].status.Draft? && t[id].workspaceId != workspaceId
    && exists k :: k in t && k != id && ActiveIn(t[k], t[id].workspaceId)
  }

  lemma ActivationKeepsSchema(t: Table, id: Id, workspaceId: Id, now: Time)
    requires SchemaHolds(t) && !SlotTakenElsewhere(t, id, workspaceId)
    ensures SchemaHolds(AfterActivation(t, id, workspaceId, now))
  {
    IncumbentsRetire(t, id, workspaceId, now);
    var middle := Execute(t, RetireIncumbents(workspaceId, id, now)).table;
    PromotionOutcome(t, middle, id, workspaceId, now);
  }

  /** A draft of the named workspace activates into its only active row, and the
      swap touches nothing but that row and the one it replaces. */
  lemma ActivationIsASwap(t: Table, id: Id, workspaceId: Id, now: Time)
    requires SchemaHolds(t) && id in t && t[id].status.Draft? && t[id].workspaceId == workspaceId
    ensures var after := AfterActivation(t, id, workspaceId, now);
            && SchemaHolds(after) && after.Keys == t.Keys
            && (forall k :: k in after ==> (ActiveIn(after[k], workspaceId) <==> k == id))
            && (forall k :: k in t ==> Evolves(t[k], after[k]))
            && (forall k :: k in t && k != id && after[k] != t[k] ==>
                  forall j :: j in t ==> (ActiveIn(t[j], workspaceId) <==> j == k))
  {
    ActivationKeepsSchema(t, id, workspaceId, now);
    var after := AfterActivation(t, id, workspaceId, now);
    assert ActiveIn(after[id], workspaceId);
  }

  /** Exactly when the named workspace has an active connection afterwards: when `id` is
      one of its own rows and not retired. Whatever other connection it had is retired all
      the same, so an id that is gone, or a draft of another workspace, leaves it with none. */
  lemma WorkspaceStaysServedIff(t: Table, id: Id, workspaceId: Id, now: Time)
    ensures var after := AfterActivation(t, id, workspaceId, now);
            && ((exists k :: k in after && ActiveIn(after[k], workspaceId)) <==>
                  id in t && t[id].workspaceId == workspaceId && !t[id].status.Retired?)
            && (forall k :: k in t && k != id && ActiveIn(t[k], workspaceId) ==> after[k].status.Retired?)
  {
    var after := AfterActivation(t, id, workspaceId, now);
    if id in t && t[id].workspaceId == workspaceId && !t[id].status.Retired? {
      assert ActiveIn(after[id], workspaceId);
    }
  }

  /** A draft of another workspace whose slot is free: the call succeeds, and the named
      workspace loses its connection to it. */
  lemma ForeignDraftCostsTheIncumbent(t: Table, id: Id, workspaceId: Id, now: Time, k: Id)
    requires SchemaHolds(t) && id in t && t[id].status.Draft? && t[id].workspaceId != workspaceId
    requires !SlotTakenElsewhere(t, id, workspaceId)
    requires k in t && ActiveIn(t[k], workspaceId)
    ensures var after := AfterActivation(t, id, workspaceId, now);
            && SchemaHolds(after) && ActiveIn(after[id], t[id].workspaceId)
            && after[k].status.Retired? && !(exists j :: j in after && ActiveIn(after[j], workspaceId))
  {
    ActivationKeepsSchema(t, id, workspaceId, now);
    hide SchemaHolds;
    WorkspaceStaysServedIff(t, id, workspaceId, now);
  }

  class PostgresRepository {
    var rows: Table

    ghost predicate Valid() reads this { SchemaHolds(rows) }

    constructor ()
      ensures Valid() && rows == map[]
    {
      rows := map[];
    }

    /** One UPDATE inside the caller's transaction. */
    method Exec(s: Statement, fails: bool) returns (r: StatementResult)
      modifies this
      ensures r == if fails then CheckViolation else Execute(old(rows), s)
      ensures rows == if r.Updated? then r.table else old(rows)
    {
      if fails {
        return CheckViolation;
      }
      r := Execute(rows, s);
      if r.Updated? {
        rows := r.table;
      }
    }

    method Create(c: Connection, sealed: Sealed, outage: Outage) returns (r: Result<(), Error>)
      requires Valid()
      modifies this
      ensures Valid()
      ensures r.Ok? ==> c.id !in old(rows) && rows == old(rows)[c.id := RowFrom(c, sealed)]
      ensures r.Err? ==> rows == old(rows)
      ensures outage.NoOutage? && c.status.Draft? ==>
                (r.Ok? <==> c.id !in old(rows) && RowChecks(RowFrom(c, sealed)))
    {
      var after := rows[c.id := RowFrom(c, sealed)];
      if !outage.NoOutage? || c.id in rows || !AllChecks(after) || !OneActive(after) {
        if c.id !in rows && RowChecks(RowFrom(c, sealed)) && c.status.Draft? {
          assert after[c.id] == RowFrom(c, sealed);
        }
        return Err(ErrDatabase);
      }
      assert RowChecks(after[c.id]);
      rows := after;
      return Ok(());
    }

    method UpdateConfig(id: Id, patch: ConfigPatch, sealed: Option<Sealed>, now: Time, outage: Outage)
      returns (r: Result<Option<Connection>, Error>)
      requires Valid()
      modifies this
      ensures Valid()
      ensures r.Err? ==> rows == old(rows)
      ensures r.Ok? && r.value.None? ==> id !in old(rows) && rows == old(rows)
      ensures r.Ok? && r.value.Some? ==>
        && id in old(rows) && old(rows)[id].status.Draft?
        && rows == old(rows)[id := Edit(old(rows)[id], patch, sealed, now)]
        && r.value.value == ToDomain(id, rows[id])
      ensures outage.NoOutage? && Storable(EditDraft(id, patch, sealed, now)) ==>
        && (r == Ok(None) <==> id !in old(rows))
        && (r == Err(ErrRetired) <==> id in old(rows) && old(rows)[id].status.Retired?)
        && (r == Err(ErrNotDraft) <==> id in old(rows) && old(rows)[id].status.Active?)
        && r != Err(ErrDatabase)
      ensures outage.NoOutage? ==>
        (r == Err(ErrDatabase) <==>
           id in old(rows) && old(rows)[id].status.Draft? && !RowChecks(Edit(old(rows)[id], patch, sealed, now)))
    {
      EditRefusedIff(rows, id, patch, sealed, now);
      var before := rows;
      var s := EditDraft(id, patch, sealed, now);
      OneRowUpdate(before, s, id);
      var res := Exec(s, outage == AtStatement(1));
      if !res.Updated? || outage == AtStatement(2) {
        rows := before;
        return Err(ErrDatabase);
      }
      if id in rows && res.count == 0 {
        rows := before;
        return Err(if before[id].status.Retired? then ErrRetired else ErrNotDraft);
      }
      if outage.AtCommit? {
        rows := before;
        return Err(ErrDatabase);
      }
      return Ok(if id in rows then Some(ToDomain(id, rows[id])) else None);
    }

    method SaveVerification(id: Id, report: VerifyReport, outage: Outage)
      returns (r: Result<Option<Connection>, Error>)
      requires Valid()
      modifies this
      ensures Valid()
      ensures r.Err? ==> rows == old(rows)
      ensures r.Ok? && r.value.None? ==> id !in old(rows) && rows == old(rows)
      ensures r.Ok? && r.value.Some? ==>
        && id in old(rows) && rows == old(rows)[id := Judge(old(rows)[id], report)]
        && r.value.value == ToDomain(id, rows[id])
      ensures outage.NoOutage? ==> r.Ok? && (r.value.Some? <==> id in old(rows))
    {
      var before := rows;
      var s := RecordVerdict(id, report);
      OneRowUpdate(before, s, id);
      var res := Exec(s, outage == AtStatement(1));
      if !res.Updated? || outage == AtStatement(2) || outage.AtCommit? {
        rows := before;
        return Err(ErrDatabase);
      }
      return Ok(if id in rows then Some(ToDomain(id, rows[id])) else None);
    }

    /** Promote a draft and retire whatever was active before, or neither. */
    method Activate(id: Id, workspaceId: Id, now: Time, outage: Outage)
      returns (r: Result<Option<Connection>, Error>)
      requires Valid()
      modifies this
      ensures Valid()
      ensures r.Err? ==> rows == old(rows)
      ensures r.Ok? ==> rows == AfterActivation(old(rows), id, workspaceId, now)
      ensures r.Ok? && r.value.Some? ==>
        && id in old(rows) && old(rows)[id].status.Draft?
        && r.value.value == ToDomain(id, rows[id]) && r.value.value.status.Active?
      ensures r.Ok? && r.value.None? ==> id !in old(rows)
      ensures r.Ok? ==>
        ((exists k :: k in rows && ActiveIn(rows[k], workspaceId)) <==>
           id in old(rows) && old(rows)[id].workspaceId == workspaceId)
      ensures outage.NoOutage? ==>
        && (r == Err(ErrWorkspaceHasActive) <==> SlotTakenElsewhere(old(rows), id, workspaceId))
        && (r == Err(ErrAlreadyActive) <==> id in old(rows) && old(rows)[id].status.Active?)
        && (r == Err(ErrRetired) <==> id in old(rows) && old(rows)[id].status.Retired?)
        && (r == Ok(None) <==> id !in old(rows))
        && r != Err(ErrNotVerified) && r != Err(ErrDatabase)
    {
      var before := rows;
      WorkspaceStaysServedIff(before, id, workspaceId, now);
      IncumbentsRetire(before, id, workspaceId, now);
      var first := Exec(RetireIncumbents(workspaceId, id, now), outage == AtStatement(1));
      if !first.Updated? {
        rows := before;
        return Err(ErrDatabase);
      }
      ghost var middle := rows;
      PromotionOutcome(before, middle, id, workspaceId, now);
      var second := Exec(PromoteDraft(id, now), outage == AtStatement(2));
      if second.DuplicateKey? {
        rows := before;
        return Err(ErrWorkspaceHasActive);
      }
      if !second.Updated? || outage == AtStatement(3) {
        rows := before;
        return Err(ErrDatabase);
      }
      if id in rows && second.count == 0 {
        var status := rows[id].status;
        rows := before;
        match status {
          case Active => return Err(ErrAlreadyActive);
          case Retired => return Err(ErrRetired);
          case Draft => return Err(ErrNotVerified);
        }
      }
      if outage.AtCommit? {
        rows := before;
        return Err(ErrDatabase);
      }
      return Ok(if id in rows then Some(ToDomain(id, rows[id])) else None);
    }

    method RetireConnection(id: Id, now: Time, outage: Outage) returns (r: Result<Option<Connection>, Error>)
      requires Valid()
      modifies this
      ensures Valid()
      ensures r.Err? ==> rows == old(rows)
      ensures r.Ok? && r.value.None? ==> id !in old(rows) && rows == old(rows)
      ensures r.Ok? && r.value.Some? ==>
        && id in old(rows) && !old(rows)[id].status.Retired?
        && rows == old(rows)[id := Retire(old(rows)[id], now)]
        && r.value.value == ToDomain(id, rows[id])
      ensures outage.NoOutage? ==>
        && (r == Ok(None) <==> id !in old(rows))
        && (r == Err(ErrRetired) <==> id in old(rows) && old(rows)[id].status.Retired?)
        && r != Err(ErrDatabase)
    {
      var before := rows;
      var s := RetireRow(id, now);
      OneRowUpdate(before, s, id);
      var res := Exec(s, outage == AtStatement(1));
      if !res.Updated? || outage == AtStatement(2) {
        rows := before;
        return Err(ErrDatabase);
      }
      if id in rows && res.count == 0 {
        rows := before;
        return Err(ErrRetired);
      }
      if outage.AtCommit? {
        rows := before;
        return Err(ErrDatabase);
      }
      return Ok(if id in rows then Some(ToDomain(id, rows[id])) else None);
    }

    /** Remove a row that is not serving traffic. */
    method Delete(id: Id, outage: Outage) returns (r: Result<(), Error>)
      requires Valid()
      modifies this
      ensures Valid()
      ensures r.Ok? ==> id in old(rows) && !old(rows)[id].status.Active? && rows == old(rows) - {id}
      ensures r.Err? ==> rows == old(rows)
      ensures outage.NoOutage? ==>
        (r == Err(ErrActiveCannotDelete) <==> id !in old(rows) || old(rows)[id].status.Active?) && r != Err(ErrDatabase)
    {
      if !outage.NoOutage? {
        return Err(ErrDatabase);
      }
      if id !in rows || rows[id].status.Active? {
        return Err(ErrActiveCannotDelete);
      }
      rows := rows - {id};
      return Ok(());
    }

    /** The connection a workspace routes through. */
    method GetActiveByWorkspace(workspaceId: Id) returns (r: Option<Connection>)
      requires Valid()
      ensures r.None? <==> forall k :: k in rows ==> !ActiveIn(rows[k], workspaceId)
      ensures forall k :: k in rows && ActiveIn(rows[k], workspaceId) ==> r == Some(ToDomain(k, rows[k]))
    {
      var hits := set k | k in rows && ActiveIn(rows[k], workspaceId);
      if hits == {} {
        assert forall k :: k in rows && ActiveIn(rows[k], workspaceId) ==> k in hits;
        return None;
      }
      var k := PickElement(hits);
      return Some(ToDomain(k, rows[k]));
    }
  }

  // ---------------------------------------------------------------------
  // Single statements against a table the schema accepts
  // ---------------------------------------------------------------------

  lemma RewriteKeepsOneActive(t: Table, id: Id, b: Row)
    requires OneActive(t) && id in t && b.workspaceId == t[id].workspaceId
    requires b.status.Active? ==> t[id].status.Active?
    ensures OneActive(t[id := b])
  {
  }

  lemma OneRowTable(t: Table, s: Statement, id: Id)
    requires s.EditDraft? || s.RecordVerdict? || s.RetireRow?
    requires s.id == id
    ensures id in t && Matches(s, id, t[id]) ==>
              UpdateSeen(t, s, t.Keys) == t[id := Assign(s, t[id])] && |Affected(t, s, t.Keys)| != 0
    ensures id !in t || !Matches(s, id, t[id]) ==> UpdateSeen(t, s, t.Keys) == t && Affected(t, s, t.Keys) == {}
  {
    hide Assign;
    if id in t && Matches(s, id, t[id]) {
      assert id in Affected(t, s, t.Keys);
    }
  }

  /** The database refuses an edit exactly when the edited row would break a CHECK. */
  lemma EditRefusedIff(t: Table, id: Id, patch: ConfigPatch, sealed: Option<Sealed>, now: Time)
    requires SchemaHolds(t)
    ensures Execute(t, EditDraft(id, patch, sealed, now)).Updated? <==>
            (id in t && t[id].status.Draft? ==> RowChecks(Edit(t[id], patch, sealed, now)))
  {
    var s := EditDraft(id, patch, sealed, now);
    OneRowTable(t, s, id);
    hide UpdateSeen, Edit, RowChecks, Affected;
    if id in t && t[id].status.Draft? {
      var b := Edit(t[id], patch, sealed, now);
      EditedStatus(t[id], patch, sealed, now);
      RewriteKeepsOneActive(t, id, b);
      assert t[id := b][id] == b;
    }
  }

  lemma EditedStatus(r: Row, patch: ConfigPatch, sealed: Option<Sealed>, now: Time)
    ensures Edit(r, patch, sealed, now).workspaceId == r.workspaceId && Edit(r, patch, sealed, now).status == r.status
  {
  }

  lemma OneRowUpdate(t: Table, s: Statement, id: Id)
    requires SchemaHolds(t)
    requires s.EditDraft? || s.RecordVerdict? || s.RetireRow?
    requires s.id == id
    ensures var res := Execute(t, s);
            && (Storable(s) ==> res.Updated?)
            && !res.DuplicateKey?
            && (res.Updated? ==>
                  && SchemaHolds(res.table)
                  && res.table.Keys == t.Keys
                  && (id in t && Matches(s, id, t[id]) ==> res.table == t[id := Assign(s, t[id])] && res.count != 0)
                  && (id in t && !Matches(s, id, t[id]) ==> res.table == t && res.count == 0)
                  && (id !in t ==> res.table == t))
  {
    if Storable(s) { UpdateKeepsChecks(t, s, t.Keys); }
    OneRowTable(t, s, id);
    hide UpdateSeen, AllChecks, Storable, Affected;
    if id in t && Matches(s, id, t[id]) {
      RewriteKeepsOneActive(t, id, Assign(s, t[id]));
    }
  }

  lemma IncumbentsRetire(t: Table, id: Id, workspaceId: Id, now: Time)
    requires SchemaHolds(t)
    ensures var res := Execute(t, RetireIncumbents(workspaceId, id, now));
            && res.Updated? && SchemaHolds(res.table)
            && res.table == map k | k in t ::
                 if k != id && ActiveIn(t[k], workspaceId) then Retire(t[k], now) else t[k]
  {
    var s := RetireIncumbents(workspaceId, id, now);
    UpdateKeepsChecks(t, s, t.Keys);
    assert OneActive(UpdateSeen(t, s, t.Keys));
  }

  lemma PromotionOutcome(t: Table, middle: Table, id: Id, workspaceId: Id, now: Time)
    requires SchemaHolds(t) && SchemaHolds(middle)
    requires middle == map k | k in t ::
               if k != id && ActiveIn(t[k], workspaceId) then Retire(t[k], now) else t[k]
    ensures var res := Execute(middle, PromoteDraft(id, now));
            && !res.CheckViolation?
            && (res.DuplicateKey? <==> SlotTakenElsewhere(t, id, workspaceId))
            && (res.Updated? ==>
                  && res.table == AfterActivation(t, id, workspaceId, now)
                  && SchemaHolds(res.table)
                  && (id in t ==> (res.count == 0 <==> !t[id].status.Draft?)))
  {
    var s := PromoteDraft(id, now);
    var after := UpdateSeen(middle, s, middle.Keys);
    UpdateKeepsChecks(middle, s, middle.Keys);
    PromotedTable(t, middle, id, workspaceId, now);
    hide UpdateSeen, AfterActivation, AllChecks, Matches;
    if id in t && t[id].status.Draft? {
      PromotionConflict(t, middle, id, workspaceId, now);
    }
  }

  lemma PromotedTable(t: Table, middle: Table, id: Id, workspaceId: Id, now: Time)
    requires middle == map k | k in t ::
               if k != id && ActiveIn(t[k], workspaceId) then Retire(t[k], now) else t[k]
    ensures var s := PromoteDraft(id, now);
            && UpdateSeen(middle, s, middle.Keys) == AfterActivation(t, id, workspaceId, now)
            && (id in t && t[id].status.Draft? ==> Affected(middle, s, middle.Keys) == {id})
            && (!(id in t && t[id].status.Draft?) ==>
                  UpdateSeen(middle, s, middle.Keys) == middle && Affected(middle, s, middle.Keys) == {})
  {
    hide RowChecks;
    var s := PromoteDraft(id, now);
    assert id in t && t[id].status.Draft? ==> id in Affected(middle, s, middle.Keys);
  }

  lemma PromotionConflict(t: Table, middle: Table, id: Id, workspaceId: Id, now: Time)
    requires OneActive(middle) && id in t && t[id].status.Draft?
    requires middle == map k | k in t ::
               if k != id && ActiveIn(t[k], workspaceId) then Retire(t[k], now) else t[k]
    ensures OneActive(AfterActivation(t, id, workspaceId, now)) <==> !SlotTakenElsewhere(t, id, workspaceId)
  {
    var after := AfterActivation(t, id, workspaceId, now);
    assert after == middle[id := Promote(t[id], now)];
    if SlotTakenElsewhere(t, id, workspaceId) {
      var k :| k in t && k != id && ActiveIn(t[k], t[id].workspaceId);
      assert ActiveIn(after[k], after[id].workspaceId);
    } else {
      forall a, b | a in after && b in after && a != b && after[a].status.Active? && after[b].status.Active?
        ensures after[a].workspaceId != after[b].workspaceId
      {
        if a != id && b != id {
          assert middle[a] == after[a] && middle[b] == after[b];
        } else {
          var other := if a == id then b else a;
          assert after[other] == t[other] && !ActiveIn(t[other], workspaceId);
        }
      }
    }
  }
}
