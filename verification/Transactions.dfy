/** The connections table under concurrent transactions.

    Any number of processes, each with its own keyring, run transactions made of
    the repository's statements and of the rotator's four actions: lock and read
    a row, open what was read, seal it again, write it back under a version
    guard. A transaction sees the committed table with its own pending rows on
    top, keeps every row it touched locked until it ends, and becomes visible
    only when it commits.

    A statement touches the rows of `seen` that still match when it runs. Leaving
    `seen` arbitrary covers every snapshot the statement could have started from. */
module Transactions {
  import opened Prelude
  import opened Secrets
  import opened ConnectionModel
  import opened ConnectionTable

  /** How far a rotator has got with the row it locked. */
  datatype Work =
    | NoWork
    | Locked(id: Id, read: Sealed)
    | Opened(id: Id, read: Sealed, plaintext: string)
    | Wrapped(id: Id, version: int, plaintext: string, wrapped: Sealed)

  datatype Tx = Tx(
    ring: Keyring,
    locks: set<Id>,
    pending: map<Id, Option<Row>>,  // None: removed by this transaction
    stored: map<Id, string>,        // plaintexts this transaction put into rows
    work: Work)

  datatype State = State(
    rows: Table,                    // what is committed
    txs: map<nat, Tx>,
    secret: map<Id, string>,        // the plaintext last committed for each row
    born: set<Id>,                  // ids the table has ever held
    rings: set<Keyring>)            // keyrings of all processes so far

  datatype Step =
    | Begin(t: nat, ring: Keyring)
    | Update(t: nat, statement: Statement, seen: set<Id>)
    | Rewrite(t: nat, id: Id, patch: ConfigPatch, plaintext: string, nonce: Nonce, now: Time, seen: set<Id>)
    | Insert(t: nat, c: Connection, plaintext: string, nonce: Nonce)
    | Remove(t: nat, id: Id)
    | LockRow(t: nat, id: Id)
    | OpenRead(t: nat)
    | SealAgain(t: nat, nonce: Nonce)
    | WriteBack(t: nat)
    | Commit(t: nat)
    | Rollback(t: nat)

  // ---------------------------------------------------------------------
  // What a transaction sees and changes
  // ---------------------------------------------------------------------

  function RowSeen(rows: Table, pending: map<Id, Option<Row>>, id: Id): Option<Row> {
    if id in pending then pending[id] else if id in rows then Some(rows[id]) else None
  }

  function View(rows: Table, pending: map<Id, Option<Row>>): Table {
    map id | id in rows.Keys + pending.Keys && RowSeen(rows, pending, id).Some? :: RowSeen(rows, pending, id).value
  }

  function SecretSeen(secret: map<Id, string>, tx: Tx, id: Id): string {
    if id in tx.stored then tx.stored[id] else if id in secret then secret[id] else ""
  }

  function Touch(tx: Tx, changes: map<Id, Option<Row>>, stored: map<Id, string>): Tx {
    tx.(locks := tx.locks + changes.Keys, pending := tx.pending + changes,
        stored := tx.stored + stored, work := NoWork)
  }

  predicate Unlocked(s: State, t: nat, ids: set<Id>) {
    forall u :: u in s.txs && u != t ==> s.txs[u].locks !! ids
  }

  /** No other transaction has a pending row that held or takes this workspace's
      slot in the unique index; the index makes a newcomer wait for those. */
  predicate SlotFree(s: State, t: nat, w: Id) {
    forall u, id :: u in s.txs && u != t && id in s.txs[u].pending ==>
      !(id in s.rows && ActiveIn(s.rows[id], w))
      && (s.txs[u].pending[id].Some? ==> !ActiveIn(s.txs[u].pending[id].value, w))
  }

  function StatementChanges(view: Table, st: Statement, seen: set<Id>): map<Id, Option<Row>> {
    map id | id in Affected(view, st, seen) :: Some(Assign(st, view[id]))
  }

  function Executed(s: State, t: nat, changes: map<Id, Option<Row>>, stored: map<Id, string>): State
    requires t in s.txs
  {
    s.(txs := s.txs[t := Touch(s.txs[t], changes, stored)])
  }

  function RewriteStatement(tx: Tx, id: Id, patch: ConfigPatch, plaintext: string, nonce: Nonce, now: Time): Statement
    requires plaintext != ""
  {
    EditDraft(id, patch, Some(tx.ring.Seal(plaintext, SecretAad(id), nonce).value), now)
  }

  function RewriteStored(view: Table, id: Id, plaintext: string, st: Statement, seen: set<Id>): map<Id, string> {
    if id in Affected(view, st, seen) then map[id := plaintext] else map[]
  }

  function NewRow(tx: Tx, c: Connection, plaintext: string, nonce: Nonce): Row
    requires plaintext != ""
  {
    RowFrom(c, tx.ring.Seal(plaintext, SecretAad(c.id), nonce).value)
  }

  predicate Enabled(s: State, step: Step) {
    if step.Begin? then step.t !in s.txs
    else if step.t !in s.txs then false
    else
      var tx := s.txs[step.t];
      var view := View(s.rows, tx.pending);
      match step
      case Update(t, st, seen) =>
        && tx.work.NoWork? && Storable(st)
        && !st.ReSeal? && (st.EditDraft? ==> st.sealed.None?)
        && Unlocked(s, t, Affected(view, st, seen))
        && (st.PromoteDraft? ==>
              && OneActive(UpdateSeen(view, st, seen))
              && forall id :: id in Affected(view, st, seen) ==> SlotFree(s, t, view[id].workspaceId))
      case Rewrite(t, id, patch, p, nonce, now, seen) =>
        && tx.work.NoWork? && p != ""
        && var st := RewriteStatement(tx, id, patch, p, nonce, now);
           Storable(st) && Unlocked(s, t, Affected(view, st, seen))
      case Insert(t, c, p, nonce) =>
        && tx.work.NoWork? && p != "" && c.status.Draft?
        && c.id !in s.born && c.id !in tx.pending && Unlocked(s, t, {c.id})
        && RowChecks(NewRow(tx, c, p, nonce))
      case Remove(t, id) =>
        tx.work.NoWork? && id in view && !view[id].status.Active? && Unlocked(s, t, {id})
      case LockRow(t, id) => tx.work.NoWork? && id in view && Unlocked(s, t, {id})
      case OpenRead(t) => tx.work.Locked? && tx.ring.Open(tx.work.read, SecretAad(tx.work.id)).Ok?
      case SealAgain(t, nonce) => tx.work.Opened? && tx.work.plaintext != ""
      case WriteBack(t) =>
        tx.work.Wrapped? && tx.work.id in view
        && Matches(ReSeal(tx.work.id, tx.work.version, tx.work.wrapped), tx.work.id, view[tx.work.id])
      case Commit(t) => true
      case Rollback(t) => true
  }

  function Next(s: State, step: Step): State
    requires Enabled(s, step)
  {
    match step
    case Begin(t, ring) =>
      s.(txs := s.txs[t := Tx(ring, {}, map[], map[], NoWork)], rings := s.rings + {ring})
    case Update(t, st, seen) =>
      Executed(s, t, StatementChanges(View(s.rows, s.txs[t].pending), st, seen), map[])
    case Rewrite(t, id, patch, p, nonce, now, seen) =>
      var view := View(s.rows, s.txs[t].pending);
      var st := RewriteStatement(s.txs[t], id, patch, p, nonce, now);
      Executed(s, t, StatementChanges(view, st, seen), RewriteStored(view, id, p, st, seen))
    case Insert(t, c, p, nonce) =>
      Executed(s, t, map[c.id := Some(NewRow(s.txs[t], c, p, nonce))], map[c.id := p])
    case Remove(t, id) => Executed(s, t, map[id := None], map[])
    case LockRow(t, id) =>
      var tx := s.txs[t];
      s.(txs := s.txs[t := tx.(locks := tx.locks + {id}, work := Locked(id, View(s.rows, tx.pending)[id].Secret()))])
    case OpenRead(t) =>
      var tx := s.txs[t];
      var p := tx.ring.Open(tx.work.read, SecretAad(tx.work.id)).value;
      s.(txs := s.txs[t := tx.(work := Opened(tx.work.id, tx.work.read, p))])
    case SealAgain(t, nonce) =>
      var tx := s.txs[t];
      var w := tx.ring.Seal(tx.work.plaintext, SecretAad(tx.work.id), nonce).value;
      s.(txs := s.txs[t := tx.(work := Wrapped(tx.work.id, tx.work.read.keyVersion, tx.work.plaintext, w))])
    case WriteBack(t) =>
      var tx := s.txs[t];
      Executed(s, t, map[tx.work.id := Some(View(s.rows, tx.pending)[tx.work.id].WithSecret(tx.work.wrapped))], map[])
    case Commit(t) =>
      var tx := s.txs[t];
      var rows := View(s.rows, tx.pending);
      State(rows, s.txs - {t}, s.secret + tx.stored, s.born + rows.Keys, s.rings)
    case Rollback(t) => s.(txs := s.txs - {t})
  }

  const Initial := State(map[], map[], map[], {}, {})

  // ---------------------------------------------------------------------
  // The invariant
  // ---------------------------------------------------------------------

  /** Some process's keyring opens the row to p. */
  ghost predicate Carries(rings: set<Keyring>, id: Id, r: Row, p: string) {
    exists ring :: ring in rings && ring.Open(r.Secret(), SecretAad(id)) == Ok(p)
  }

  ghost predicate TableOk(s: State) {
    && SchemaHolds(s.rows)
    && s.rows.Keys <= s.born
    && s.rows.Keys <= s.secret.Keys
    && forall id :: id in s.rows ==> Carries(s.rings, id, s.rows[id], s.secret[id])
  }

  ghost predicate PendingOk(s: State, tx: Tx, id: Id, r: Row) {
    && RowChecks(r)
    && Carries(s.rings, id, r, SecretSeen(s.secret, tx, id))
    && (id in s.rows ==> Evolves(s.rows[id], r))
    && (id in s.rows && id in tx.stored ==> s.rows[id].status.Draft?)
    && (id !in s.rows ==> id !in s.born && id in tx.stored)
  }

  ghost predicate WorkOk(s: State, tx: Tx) {
    match tx.work
    case NoWork => true
    case Locked(id, read) =>
      id in tx.locks && id in View(s.rows, tx.pending) && View(s.rows, tx.pending)[id].Secret() == read
    case Opened(id, read, p) =>
      && id in tx.locks && id in View(s.rows, tx.pending) && View(s.rows, tx.pending)[id].Secret() == read
      && tx.ring.Open(read, SecretAad(id)) == Ok(p) && p == SecretSeen(s.secret, tx, id)
    case Wrapped(id, version, p, wrapped) =>
      && id in tx.locks && id in View(s.rows, tx.pending) && View(s.rows, tx.pending)[id].secretKeyVersion == version
      && tx.ring.Open(wrapped, SecretAad(id)) == Ok(p) && p == SecretSeen(s.secret, tx, id)
      && SealedStorable(wrapped)
  }

  ghost predicate TxOk(s: State, tx: Tx) {
    && tx.ring in s.rings
    && tx.pending.Keys <= tx.locks
    && tx.stored.Keys <= tx.pending.Keys
    && (forall id :: id in tx.pending && tx.pending[id].Some? ==> PendingOk(s, tx, id, tx.pending[id].value))
    && OneActive(View(s.rows, tx.pending))
    && WorkOk(s, tx)
  }

  /** The transaction has a pending row that takes or keeps w's active slot. */
  ghost predicate Claims(tx: Tx, w: Id) {
    exists id :: id in tx.pending && tx.pending[id].Some? && ActiveIn(tx.pending[id].value, w)
  }

  ghost predicate Apart(a: Tx, b: Tx) {
    a.locks !! b.locks && forall w :: !(Claims(a, w) && Claims(b, w))
  }

  ghost predicate Inv(s: State) {
    && TableOk(s)
    && (forall t :: t in s.txs ==> TxOk(s, s.txs[t]))
    && (forall t, u :: t in s.txs && u in s.txs && t != u ==> Apart(s.txs[t], s.txs[u]))
  }

  lemma InitialInv()
    ensures Inv(Initial)
  {
  }

  // ---------------------------------------------------------------------
  // Steps that change one transaction
  // ---------------------------------------------------------------------

  lemma RowOfView(s: State, tx: Tx, id: Id)
    requires TableOk(s) && TxOk(s, tx) && id in View(s.rows, tx.pending)
    ensures var r := View(s.rows, tx.pending)[id];
            && RowChecks(r)
            && Carries(s.rings, id, r, SecretSeen(s.secret, tx, id))
            && (id in s.rows ==> Evolves(s.rows[id], r))
            && (id in tx.pending || id in s.rows)
  {
    if id in tx.pending {
      assert PendingOk(s, tx, id, tx.pending[id].value);
    }
  }

  ghost predicate ChangeOk(s: State, t: nat, tx': Tx, id: Id, r: Row)
    requires t in s.txs
  {
    var view := View(s.rows, s.txs[t].pending);
    && RowChecks(r)
    && Carries(s.rings, id, r, SecretSeen(s.secret, tx', id))
    && (id in view ==> Evolves(view[id], r) && (id in tx'.stored ==> id in s.txs[t].stored || view[id].status.Draft?))
    && (id !in view ==> id !in s.rows && id !in s.born && id in tx'.stored)
    && (r.status.Active? ==> (id in view && view[id].status.Active?) || SlotFree(s, t, r.workspaceId))
  }

  ghost predicate TouchOk(s: State, t: nat, changes: map<Id, Option<Row>>, stored: map<Id, string>)
    requires t in s.txs
  {
    var tx' := Touch(s.txs[t], changes, stored);
    && Unlocked(s, t, changes.Keys)
    && stored.Keys <= changes.Keys
    && OneActive(View(s.rows, tx'.pending))
    && forall id :: id in changes && changes[id].Some? ==> ChangeOk(s, t, tx', id, changes[id].value)
  }

  lemma TouchedPending(s: State, t: nat, changes: map<Id, Option<Row>>, stored: map<Id, string>, id: Id)
    requires Inv(s) && t in s.txs && TouchOk(s, t, changes, stored)
    requires var tx' := Touch(s.txs[t], changes, stored); id in tx'.pending && tx'.pending[id].Some?
    ensures var tx' := Touch(s.txs[t], changes, stored); PendingOk(s, tx', id, tx'.pending[id].value)
  {
    var tx := s.txs[t];
    var tx' := Touch(tx, changes, stored);
    if id in changes {
      var r := changes[id].value;
      assert ChangeOk(s, t, tx', id, r);
      if id in View(s.rows, tx.pending) {
        RowOfView(s, tx, id);
        if id in s.rows { EvolvesTransitive(s.rows[id], View(s.rows, tx.pending)[id], r); }
        if id in tx.pending { assert PendingOk(s, tx, id, tx.pending[id].value); }
      }
    } else {
      assert PendingOk(s, tx, id, tx.pending[id].value);
    }
  }

  lemma TouchKeepsTx(s: State, t: nat, changes: map<Id, Option<Row>>, stored: map<Id, string>)
    requires Inv(s) && t in s.txs && TouchOk(s, t, changes, stored)
    ensures TxOk(s, Touch(s.txs[t], changes, stored))
  {
    var tx' := Touch(s.txs[t], changes, stored);
    assert TxOk(s, s.txs[t]);
    forall id | id in tx'.pending && tx'.pending[id].Some? ensures PendingOk(s, tx', id, tx'.pending[id].value) {
      TouchedPending(s, t, changes, stored, id);
    }
  }

  /** A transaction that newly claims a slot leaves no room for another's claim. */
  lemma TouchKeepsApart(s: State, t: nat, changes: map<Id, Option<Row>>, stored: map<Id, string>, u: nat)
    requires Inv(s) && t in s.txs && u in s.txs && u != t && TouchOk(s, t, changes, stored)
    ensures Apart(Touch(s.txs[t], changes, stored), s.txs[u])
  {
    var tx, other := s.txs[t], s.txs[u];
    var tx' := Touch(tx, changes, stored);
    assert Apart(tx, other) && TxOk(s, other) && TxOk(s, tx);
    forall w ensures !(Claims(tx', w) && Claims(other, w)) {
      if Claims(tx', w) {
        var i :| i in tx'.pending && tx'.pending[i].Some? && ActiveIn(tx'.pending[i].value, w);
        forall j | j in other.pending && other.pending[j].Some? ensures !ActiveIn(other.pending[j].value, w) {
          ClaimExcludes(s, t, changes, stored, u, w, i, j);
        }
      }
    }
  }

  lemma ClaimExcludes(s: State, t: nat, changes: map<Id, Option<Row>>, stored: map<Id, string>,
                      u: nat, w: Id, i: Id, j: Id)
    requires Inv(s) && t in s.txs && u in s.txs && u != t && TouchOk(s, t, changes, stored)
    requires var tx' := Touch(s.txs[t], changes, stored);
             i in tx'.pending && tx'.pending[i].Some? && ActiveIn(tx'.pending[i].value, w)
    requires j in s.txs[u].pending && s.txs[u].pending[j].Some?
    ensures !ActiveIn(s.txs[u].pending[j].value, w)
  {
    var tx, other := s.txs[t], s.txs[u];
    assert Apart(tx, other) && TxOk(s, other) && TxOk(s, tx);
    if i in tx.pending && tx.pending[i].Some? && ActiveIn(tx.pending[i].value, w) {
      assert Claims(tx, w);
    } else {
      var r := changes[i].value;
      var view := View(s.rows, tx.pending);
      assert ChangeOk(s, t, Touch(tx, changes, stored), i, r);
      if i in view && view[i].status.Active? {
        assert Evolves(view[i], r);
        var theirs := View(s.rows, other.pending);
        assert i !in other.locks && i in theirs && theirs[i] == s.rows[i];
        assert j in theirs && theirs[j] == other.pending[j].value;
      }
    }
  }

  lemma TouchKeepsInv(s: State, t: nat, changes: map<Id, Option<Row>>, stored: map<Id, string>)
    requires Inv(s) && t in s.txs && TouchOk(s, t, changes, stored)
    ensures Inv(Executed(s, t, changes, stored))
  {
    TouchKeepsTx(s, t, changes, stored);
    forall u | u in s.txs && u != t ensures Apart(Touch(s.txs[t], changes, stored), s.txs[u]) {
      TouchKeepsApart(s, t, changes, stored, u);
    }
    OneTxChanges(s, t, Touch(s.txs[t], changes, stored));
  }

  /** Replacing one transaction's record keeps the invariant when the new record
      is sound and apart from the others. */
  lemma OneTxChanges(s: State, t: nat, tx: Tx)
    requires Inv(s) && t in s.txs && TxOk(s, tx)
    requires forall u :: u in s.txs && u != t ==> Apart(tx, s.txs[u])
    ensures Inv(s.(txs := s.txs[t := tx]))
  {
    var s' := s.(txs := s.txs[t := tx]);
    forall u | u in s'.txs ensures TxOk(s', s'.txs[u]) {
      SameBackground(s, s', s'.txs[u]);
    }
    forall a, b | a in s'.txs && b in s'.txs && a != b ensures Apart(s'.txs[a], s'.txs[b]) {
      if a != t && b != t { assert Apart(s.txs[a], s.txs[b]); }
    }
  }

  /** A transaction's soundness depends on the committed table, the committed
      plaintexts and the keyrings, and more keyrings do no harm. */
  lemma SameBackground(s: State, s': State, tx: Tx)
    requires TxOk(s, tx)
    requires s'.rows == s.rows && s'.secret == s.secret && s'.born == s.born && s.rings <= s'.rings
    ensures TxOk(s', tx)
  {
    forall id | id in tx.pending && tx.pending[id].Some? ensures PendingOk(s', tx, id, tx.pending[id].value) {
      assert PendingOk(s, tx, id, tx.pending[id].value);
    }
  }

  // ---------------------------------------------------------------------
  // The steps, one by one
  // ---------------------------------------------------------------------

  /** The view after a change: the changed rows as changed, the rest as before. */
  lemma ViewAfterTouch(rows: Table, tx: Tx, changes: map<Id, Option<Row>>, stored: map<Id, string>, id: Id)
    ensures var after := View(rows, Touch(tx, changes, stored).pending);
            && (id in changes ==> (id in after <==> changes[id].Some?))
            && (id in changes && changes[id].Some? ==> after[id] == changes[id].value)
            && (id !in changes ==> (id in after <==> id in View(rows, tx.pending)))
            && (id !in changes && id in after ==> after[id] == View(rows, tx.pending)[id])
  {
    var tx' := Touch(tx, changes, stored);
    assert RowSeen(rows, tx'.pending, id) == if id in changes then changes[id] else RowSeen(rows, tx.pending, id);
  }

  lemma ViewAfterStatement(rows: Table, tx: Tx, st: Statement, seen: set<Id>, stored: map<Id, string>)
    ensures View(rows, Touch(tx, StatementChanges(View(rows, tx.pending), st, seen), stored).pending)
            == UpdateSeen(View(rows, tx.pending), st, seen)
  {
    var view := View(rows, tx.pending);
    var changes := StatementChanges(view, st, seen);
    var after, want := View(rows, Touch(tx, changes, stored).pending), UpdateSeen(view, st, seen);
    forall id ensures (id in after <==> id in want) && (id in want ==> after[id] == want[id]) {
      ViewAfterTouch(rows, tx, changes, stored, id);
      assert id in changes <==> id in view && id in seen && Matches(st, id, view[id]);
    }
    assert after.Keys == want.Keys;
  }

  lemma ViewAfterOne(rows: Table, tx: Tx, id: Id, r: Option<Row>, stored: map<Id, string>)
    ensures View(rows, Touch(tx, map[id := r], stored).pending)
            == var view := View(rows, tx.pending);
               match r { case Some(row) => view[id := row] case None => view - {id} }
  {
    var changes := map[id := r];
    var after := View(rows, Touch(tx, changes, stored).pending);
    var view := View(rows, tx.pending);
    var want := match r { case Some(row) => view[id := row] case None => view - {id} };
    forall k ensures (k in after <==> k in want) && (k in want ==> after[k] == want[k]) {
      ViewAfterTouch(rows, tx, changes, stored, k);
    }
    assert after.Keys == want.Keys;
  }

  lemma StatementKeepsOneActive(view: Table, st: Statement, seen: set<Id>)
    requires OneActive(view) && !st.PromoteDraft?
    ensures OneActive(UpdateSeen(view, st, seen))
  {
    var after := UpdateSeen(view, st, seen);
    forall a | a in after && after[a].status.Active?
      ensures view[a].status.Active? && view[a].workspaceId == after[a].workspaceId
    {
      if a in seen && Matches(st, a, view[a]) { OnlyPromotionActivates(st, a, view[a], after[a].workspaceId); }
    }
  }

  /** A statement without a new secret, on one row of the view. */
  lemma StatementChangeOk(s: State, t: nat, tx': Tx, st: Statement, id: Id)
    requires TableOk(s) && t in s.txs && TxOk(s, s.txs[t]) && tx'.stored == s.txs[t].stored
    requires Storable(st) && !st.ReSeal? && (st.EditDraft? ==> st.sealed.None?)
    requires id in View(s.rows, s.txs[t].pending) && Matches(st, id, View(s.rows, s.txs[t].pending)[id])
    requires st.PromoteDraft? ==> SlotFree(s, t, View(s.rows, s.txs[t].pending)[id].workspaceId)
    ensures ChangeOk(s, t, tx', id, Assign(st, View(s.rows, s.txs[t].pending)[id]))
  {
    hide SchemaHolds, WorkOk, OneActive, SlotFree, RowChecks;
    var r := View(s.rows, s.txs[t].pending)[id];
    RowOfView(s, s.txs[t], id);
    StatementKeepsChecks(st, id, r);
    StatementEvolves(st, id, r);
    assert Assign(st, r).Secret() == r.Secret();
  }

  /** What an enabled statement brings along. */
  ghost predicate UpdateAllowed(s: State, t: nat, st: Statement, seen: set<Id>)
    requires t in s.txs
  {
    var view := View(s.rows, s.txs[t].pending);
    && Storable(st) && !st.ReSeal? && (st.EditDraft? ==> st.sealed.None?)
    && Unlocked(s, t, Affected(view, st, seen))
    && (st.PromoteDraft? ==>
          && OneActive(UpdateSeen(view, st, seen))
          && forall id :: id in Affected(view, st, seen) ==> SlotFree(s, t, view[id].workspaceId))
  }

  lemma UpdateIsAllowed(s: State, t: nat, st: Statement, seen: set<Id>)
    requires Enabled(s, Update(t, st, seen))
    ensures t in s.txs && UpdateAllowed(s, t, st, seen)
  {
    hide Storable, Unlocked, OneActive, SlotFree, View, UpdateSeen, Affected;
  }

  lemma UpdateChangesOk(s: State, t: nat, st: Statement, seen: set<Id>)
    requires TableOk(s) && t in s.txs && TxOk(s, s.txs[t]) && UpdateAllowed(s, t, st, seen)
    ensures var changes := StatementChanges(View(s.rows, s.txs[t].pending), st, seen);
            forall id :: id in changes && changes[id].Some? ==>
              ChangeOk(s, t, Touch(s.txs[t], changes, map[]), id, changes[id].value)
  {
    hide ChangeOk, TableOk, TxOk, Storable, View, Assign, OneActive, SlotFree, Unlocked;
    var view := View(s.rows, s.txs[t].pending);
    var changes := StatementChanges(view, st, seen);
    var tx' := Touch(s.txs[t], changes, map[]);
    forall id | id in changes && changes[id].Some? ensures ChangeOk(s, t, tx', id, changes[id].value) {
      StatementChangeOk(s, t, tx', st, id);
    }
  }

  lemma UpdateKeepsInv(s: State, t: nat, st: Statement, seen: set<Id>)
    requires Inv(s) && Enabled(s, Update(t, st, seen))
    ensures Inv(Next(s, Update(t, st, seen)))
  {
    UpdateIsAllowed(s, t, st, seen);
    hide ChangeOk, SchemaHolds, RowChecks, PendingOk, WorkOk, Assign, Enabled, SlotFree, Storable;
    var tx := s.txs[t];
    var view := View(s.rows, tx.pending);
    assert TxOk(s, tx);
    ViewAfterStatement(s.rows, tx, st, seen, map[]);
    if !st.PromoteDraft? { StatementKeepsOneActive(view, st, seen); }
    UpdateChangesOk(s, t, st, seen);
    TouchKeepsInv(s, t, StatementChanges(view, st, seen), map[]);
    UpdateIs(s, t, st, seen);
  }

  lemma UpdateIs(s: State, t: nat, st: Statement, seen: set<Id>)
    requires Enabled(s, Update(t, st, seen))
    ensures Next(s, Update(t, st, seen))
            == Executed(s, t, StatementChanges(View(s.rows, s.txs[t].pending), st, seen), map[])
  {
    hide View, StatementChanges, Executed;
  }

  lemma RewriteChangeOk(s: State, step: Step, tx': Tx, k: Id)
    requires step.Rewrite? && step.t in s.txs && TableOk(s) && TxOk(s, s.txs[step.t]) && step.plaintext != ""
    requires var st := RewriteStatement(s.txs[step.t], step.id, step.patch, step.plaintext, step.nonce, step.now);
             Storable(st) && k in Affected(View(s.rows, s.txs[step.t].pending), st, step.seen)
    requires k in tx'.stored && tx'.stored[k] == step.plaintext
    ensures var tx := s.txs[step.t];
            var st := RewriteStatement(tx, step.id, step.patch, step.plaintext, step.nonce, step.now);
            ChangeOk(s, step.t, tx', k, Assign(st, View(s.rows, tx.pending)[k]))
  {
    var tx := s.txs[step.t];
    var view := View(s.rows, tx.pending);
    var st := RewriteStatement(tx, step.id, step.patch, step.plaintext, step.nonce, step.now);
    RowOfView(s, tx, k);
    StatementKeepsChecks(st, k, view[k]);
    StatementEvolves(st, k, view[k]);
    assert tx.ring.Open(Assign(st, view[k]).Secret(), SecretAad(k)) == Ok(step.plaintext);
  }

  lemma RewriteKeepsInv(s: State, step: Step)
    requires Inv(s) && step.Rewrite? && Enabled(s, step)
    ensures Inv(Next(s, step))
  {
    var t, tx := step.t, s.txs[step.t];
    var view := View(s.rows, tx.pending);
    var st := RewriteStatement(tx, step.id, step.patch, step.plaintext, step.nonce, step.now);
    var changes := StatementChanges(view, st, step.seen);
    var stored := RewriteStored(view, step.id, step.plaintext, st, step.seen);
    var tx' := Touch(tx, changes, stored);
    assert TxOk(s, tx);
    ViewAfterStatement(s.rows, tx, st, step.seen, stored);
    StatementKeepsOneActive(view, st, step.seen);
    forall k | k in changes && changes[k].Some? ensures ChangeOk(s, t, tx', k, changes[k].value) {
      assert k == step.id;
      RewriteChangeOk(s, step, tx', k);
    }
    TouchKeepsInv(s, t, changes, stored);
  }

  lemma InsertChangeOk(s: State, step: Step, tx': Tx)
    requires step.Insert? && TableOk(s) && Enabled(s, step) && TxOk(s, s.txs[step.t])
    requires step.c.id in tx'.stored && tx'.stored[step.c.id] == step.plaintext
    ensures ChangeOk(s, step.t, tx', step.c.id, NewRow(s.txs[step.t], step.c, step.plaintext, step.nonce))
    ensures step.c.id !in View(s.rows, s.txs[step.t].pending)
  {
    var tx := s.txs[step.t];
    var row := NewRow(tx, step.c, step.plaintext, step.nonce);
    assert tx.ring.Open(row.Secret(), SecretAad(step.c.id)) == Ok(step.plaintext);
  }

  lemma InsertKeepsInv(s: State, step: Step)
    requires Inv(s) && step.Insert? && Enabled(s, step)
    ensures Inv(Next(s, step))
  {
    var t, tx, id := step.t, s.txs[step.t], step.c.id;
    var r := NewRow(tx, step.c, step.plaintext, step.nonce);
    var changes, stored := map[id := Some(r)], map[id := step.plaintext];
    assert TxOk(s, tx);
    ViewAfterOne(s.rows, tx, id, Some(r), stored);
    InsertChangeOk(s, step, Touch(tx, changes, stored));
    DraftKeepsOneActive(View(s.rows, tx.pending), id, r);
    TouchKeepsInv(s, t, changes, stored);
  }

  lemma DraftKeepsOneActive(view: Table, id: Id, r: Row)
    requires OneActive(view) && !r.status.Active?
    ensures OneActive(view[id := r])
  {
  }

  lemma RemoveKeepsInv(s: State, t: nat, id: Id)
    requires Inv(s) && Enabled(s, Remove(t, id))
    ensures Inv(Next(s, Remove(t, id)))
  {
    var tx := s.txs[t];
    assert TxOk(s, tx);
    ViewAfterOne(s.rows, tx, id, None, map[]);
    assert OneActive(View(s.rows, tx.pending) - {id});
    TouchKeepsInv(s, t, map[id := None], map[]);
  }

  /** Changing only the locks a transaction holds and its rotator work. */
  lemma WorkKeepsTx(s: State, tx: Tx, tx': Tx)
    requires TxOk(s, tx) && WorkOk(s, tx')
    requires tx' == tx.(locks := tx'.locks, work := tx'.work) && tx.locks <= tx'.locks
    ensures TxOk(s, tx')
  {
    forall id | id in tx'.pending && tx'.pending[id].Some? ensures PendingOk(s, tx', id, tx'.pending[id].value) {
      assert PendingOk(s, tx, id, tx.pending[id].value);
    }
  }

  lemma WorkKeepsInv(s: State, t: nat, tx': Tx)
    requires Inv(s) && t in s.txs && WorkOk(s, tx')
    requires tx' == s.txs[t].(locks := tx'.locks, work := tx'.work) && s.txs[t].locks <= tx'.locks
    requires Unlocked(s, t, tx'.locks)
    ensures Inv(s.(txs := s.txs[t := tx']))
  {
    var tx := s.txs[t];
    WorkKeepsTx(s, tx, tx');
    forall u | u in s.txs && u != t ensures Apart(tx', s.txs[u]) {
      assert Apart(tx, s.txs[u]);
      assert forall w :: Claims(tx', w) ==> Claims(tx, w);
    }
    OneTxChanges(s, t, tx');
  }

  lemma OwnLocks(s: State, t: nat)
    requires Inv(s) && t in s.txs
    ensures Unlocked(s, t, s.txs[t].locks)
  {
    forall u | u in s.txs && u != t ensures s.txs[u].locks !! s.txs[t].locks {
      assert Apart(s.txs[t], s.txs[u]);
    }
  }

  lemma LockKeepsInv(s: State, t: nat, id: Id)
    requires Inv(s) && Enabled(s, LockRow(t, id))
    ensures Inv(Next(s, LockRow(t, id)))
  {
    var tx, tx' := s.txs[t], Next(s, LockRow(t, id)).txs[t];
    OwnLocks(s, t);
    WorkKeepsInv(s, t, tx');
  }

  lemma OpenKeepsInv(s: State, t: nat)
    requires Inv(s) && Enabled(s, OpenRead(t))
    ensures Inv(Next(s, OpenRead(t)))
  {
    var tx, tx' := s.txs[t], Next(s, OpenRead(t)).txs[t];
    var id, read := tx.work.id, tx.work.read;
    OwnLocks(s, t);
    assert TxOk(s, tx);
    RowOfView(s, tx, id);
    var ring :| ring in s.rings && ring.Open(read, SecretAad(id)) == Ok(SecretSeen(s.secret, tx, id));
    OpenAgrees(ring, tx.ring, read, SecretAad(id));
    WorkKeepsInv(s, t, tx');
  }

  lemma SealKeepsInv(s: State, t: nat, nonce: Nonce)
    requires Inv(s) && Enabled(s, SealAgain(t, nonce))
    ensures Inv(Next(s, SealAgain(t, nonce)))
  {
    var tx, tx' := s.txs[t], Next(s, SealAgain(t, nonce)).txs[t];
    OwnLocks(s, t);
    assert TxOk(s, tx);
    SealThenOpen(tx.ring, tx.ring, tx.work.plaintext, SecretAad(tx.work.id), nonce);
    WorkKeepsInv(s, t, tx');
  }

  /** Under the row lock the version guard always matches: a rotation write can
      never be lost. */
  lemma WriteIsNeverLost(s: State, t: nat)
    requires Inv(s) && t in s.txs && s.txs[t].work.Wrapped?
    ensures Enabled(s, WriteBack(t))
  {
    assert TxOk(s, s.txs[t]);
  }

  /** Writing the secret columns touches nothing the schema or the lifecycle reads. */
  lemma RewrapIsQuiet(r: Row, sealed: Sealed)
    requires RowChecks(r) && SealedStorable(sealed)
    ensures var after := r.WithSecret(sealed);
            && RowChecks(after) && Evolves(r, after)
            && after.status == r.status && after.workspaceId == r.workspaceId
  {
  }

  lemma WriteChangeOk(s: State, t: nat, tx': Tx)
    requires TableOk(s) && t in s.txs && TxOk(s, s.txs[t]) && s.txs[t].work.Wrapped?
    requires tx'.stored == s.txs[t].stored
    ensures var tx := s.txs[t];
            && tx.work.id in View(s.rows, tx.pending)
            && ChangeOk(s, t, tx', tx.work.id, View(s.rows, tx.pending)[tx.work.id].WithSecret(tx.work.wrapped))
  {
    hide SchemaHolds, OneActive, SlotFree, RawKeyring.Open, RawKeyring.Valid;
    var tx, id := s.txs[t], s.txs[t].work.id;
    RowOfView(s, tx, id);
    var was := View(s.rows, tx.pending)[id];
    var r := was.WithSecret(tx.work.wrapped);
    assert r.Secret() == tx.work.wrapped;
    assert Carries(s.rings, id, r, SecretSeen(s.secret, tx', id));
    RewrapIsQuiet(was, tx.work.wrapped);
  }

  lemma WriteTouchOk(s: State, t: nat, r: Row)
    requires TableOk(s) && t in s.txs && TxOk(s, s.txs[t]) && s.txs[t].work.Wrapped?
    requires Unlocked(s, t, s.txs[t].locks)
    requires r == View(s.rows, s.txs[t].pending)[s.txs[t].work.id].WithSecret(s.txs[t].work.wrapped)
    ensures TouchOk(s, t, map[s.txs[t].work.id := Some(r)], map[])
  {
    hide ChangeOk, SchemaHolds, PendingOk, RowChecks, Carries;
    var tx := s.txs[t];
    var id, view := tx.work.id, View(s.rows, tx.pending);
    WriteChangeOk(s, t, Touch(tx, map[id := Some(r)], map[]));
    ViewAfterOne(s.rows, tx, id, Some(r), map[]);
    SameStatusKeepsOneActive(view, id, r);
  }

  lemma WriteBackKeepsInv(s: State, t: nat)
    requires Inv(s) && Enabled(s, WriteBack(t))
    ensures Inv(Next(s, WriteBack(t)))
  {
    var tx := s.txs[t];
    assert TxOk(s, tx);
    var r := View(s.rows, tx.pending)[tx.work.id].WithSecret(tx.work.wrapped);
    OwnLocks(s, t);
    WriteTouchOk(s, t, r);
    TouchKeepsInv(s, t, map[tx.work.id := Some(r)], map[]);
  }

  lemma SameStatusKeepsOneActive(view: Table, id: Id, r: Row)
    requires OneActive(view) && id in view
    requires r.status == view[id].status && r.workspaceId == view[id].workspaceId
    ensures OneActive(view[id := r])
  {
  }

  lemma NewTxOk(s: State, ring: Keyring)
    requires OneActive(s.rows) && ring in s.rings
    ensures TxOk(s, Tx(ring, {}, map[], map[], NoWork))
  {
    assert View(s.rows, map[]) == s.rows;
  }

  lemma BeginKeepsInv(s: State, t: nat, ring: Keyring)
    requires Inv(s) && Enabled(s, Begin(t, ring))
    ensures Inv(Next(s, Begin(t, ring)))
  {
    var s' := Next(s, Begin(t, ring));
    forall u | u in s'.txs ensures TxOk(s', s'.txs[u]) {
      if u != t { SameBackground(s, s', s.txs[u]); } else { NewTxOk(s', ring); }
    }
    forall a, b | a in s'.txs && b in s'.txs && a != b ensures Apart(s'.txs[a], s'.txs[b]) {
      if a != t && b != t { assert Apart(s.txs[a], s.txs[b]); }
    }
    MoreKeyrings(s, s');
  }

  lemma MoreKeyrings(s: State, s': State)
    requires TableOk(s)
    requires s'.rows == s.rows && s'.secret == s.secret && s'.born == s.born && s.rings <= s'.rings
    ensures TableOk(s')
  {
    forall id | id in s'.rows ensures Carries(s'.rings, id, s'.rows[id], s'.secret[id]) {
      assert Carries(s.rings, id, s.rows[id], s.secret[id]);
    }
  }

  // ---------------------------------------------------------------------
  // Commit
  // ---------------------------------------------------------------------

  lemma CommitKeepsTable(s: State, t: nat)
    requires Inv(s) && t in s.txs
    ensures TableOk(Next(s, Commit(t)))
  {
    var tx, s' := s.txs[t], Next(s, Commit(t));
    assert TxOk(s, tx);
    forall id | id in s'.rows
      ensures RowChecks(s'.rows[id]) && id in s'.secret && Carries(s'.rings, id, s'.rows[id], s'.secret[id])
    {
      RowOfView(s, tx, id);
      if id in tx.pending { assert PendingOk(s, tx, id, tx.pending[id].value); }
    }
  }

  /** A commit changes nothing on the rows another transaction holds locked. */
  lemma CommitSparesLocked(s: State, t: nat, u: nat, id: Id)
    requires Inv(s) && t in s.txs && u in s.txs && u != t && id in s.txs[u].locks
    ensures var s' := Next(s, Commit(t));
            && RowSeen(s'.rows, s.txs[u].pending, id) == RowSeen(s.rows, s.txs[u].pending, id)
            && (id in s'.rows <==> id in s.rows) && (id in s.rows ==> s'.rows[id] == s.rows[id])
            && SecretSeen(s'.secret, s.txs[u], id) == SecretSeen(s.secret, s.txs[u], id)
            && (id in s'.born <==> id in s.born)
  {
    assert Apart(s.txs[t], s.txs[u]) && TxOk(s, s.txs[t]);
    assert id !in s.txs[t].pending;
  }

  lemma CommitKeepsView(s: State, t: nat, u: nat)
    requires Inv(s) && t in s.txs && u in s.txs && u != t
    ensures OneActive(View(Next(s, Commit(t)).rows, s.txs[u].pending))
  {
    var s' := Next(s, Commit(t));
    var tx, other := s.txs[t], s.txs[u];
    assert TxOk(s, tx) && TxOk(s, other) && Apart(tx, other);
    var after := View(s'.rows, other.pending);
    forall a, b | a in after && b in after && a != b && after[a].status.Active? && after[b].status.Active?
      ensures after[a].workspaceId != after[b].workspaceId
    {
      if a in other.pending && b !in other.pending {
        SlotsStayApart(s, t, u, a, b);
      } else if b in other.pending && a !in other.pending {
        SlotsStayApart(s, t, u, b, a);
      } else if a in other.pending {
        var before := View(s.rows, other.pending);
        assert before[a] == after[a] && before[b] == after[b];
      } else {
        assert s'.rows[a] == after[a] && s'.rows[b] == after[b];
      }
    }
  }

  lemma SlotsStayApart(s: State, t: nat, u: nat, a: Id, b: Id)
    requires Inv(s) && t in s.txs && u in s.txs && u != t
    requires a in s.txs[u].pending && s.txs[u].pending[a].Some? && s.txs[u].pending[a].value.status.Active?
    requires b !in s.txs[u].pending && b in View(s.rows, s.txs[t].pending)
    requires View(s.rows, s.txs[t].pending)[b].status.Active?
    ensures s.txs[u].pending[a].value.workspaceId != View(s.rows, s.txs[t].pending)[b].workspaceId
  {
    var tx, other := s.txs[t], s.txs[u];
    assert TxOk(s, other) && Apart(tx, other);
    var w := other.pending[a].value.workspaceId;
    assert Claims(other, w);
    if b in tx.pending {
      assert !Claims(tx, w);
    } else {
      var theirs := View(s.rows, other.pending);
      assert a in theirs && b in theirs && a != b && theirs[b] == s.rows[b];
    }
  }

  lemma CommitKeepsOthers(s: State, t: nat, u: nat)
    requires Inv(s) && t in s.txs && u in s.txs && u != t
    ensures TxOk(Next(s, Commit(t)), s.txs[u])
  {
    var s' := Next(s, Commit(t));
    var other := s.txs[u];
    assert TxOk(s, other);
    forall id | id in other.pending && other.pending[id].Some?
      ensures PendingOk(s', other, id, other.pending[id].value)
    {
      assert PendingOk(s, other, id, other.pending[id].value);
      CommitSparesLocked(s, t, u, id);
    }
    CommitKeepsView(s, t, u);
    if !other.work.NoWork? {
      CommitSparesLocked(s, t, u, other.work.id);
    }
  }

  lemma CommitKeepsInv(s: State, t: nat)
    requires Inv(s) && Enabled(s, Commit(t))
    ensures Inv(Next(s, Commit(t)))
  {
    var s' := Next(s, Commit(t));
    CommitKeepsTable(s, t);
    forall u | u in s'.txs ensures TxOk(s', s'.txs[u]) {
      CommitKeepsOthers(s, t, u);
    }
    forall a, b | a in s'.txs && b in s'.txs && a != b ensures Apart(s'.txs[a], s'.txs[b]) {
      assert Apart(s.txs[a], s.txs[b]);
    }
  }

  lemma RollbackKeepsInv(s: State, t: nat)
    requires Inv(s) && Enabled(s, Rollback(t))
    ensures Inv(Next(s, Rollback(t)))
  {
    var s' := Next(s, Rollback(t));
    forall u | u in s'.txs ensures TxOk(s', s'.txs[u]) {
      SameBackground(s, s', s.txs[u]);
    }
    forall a, b | a in s'.txs && b in s'.txs && a != b ensures Apart(s'.txs[a], s'.txs[b]) {
      assert Apart(s.txs[a], s.txs[b]);
    }
  }

  lemma StepKeepsInv(s: State, step: Step)
    requires Inv(s) && Enabled(s, step)
    ensures Inv(Next(s, step))
  {
    hide Inv, Enabled, Next;
    match step
    case Begin(t, ring) => BeginKeepsInv(s, t, ring);
    case Update(t, st, seen) => UpdateKeepsInv(s, t, st, seen);
    case Rewrite(_, _, _, _, _, _, _) => RewriteKeepsInv(s, step);
    case Insert(_, _, _, _) => InsertKeepsInv(s, step);
    case Remove(t, id) => RemoveKeepsInv(s, t, id);
    case LockRow(t, id) => LockKeepsInv(s, t, id);
    case OpenRead(t) => OpenKeepsInv(s, t);
    case SealAgain(t, nonce) => SealKeepsInv(s, t, nonce);
    case WriteBack(t) => WriteBackKeepsInv(s, t);
    case Commit(t) => CommitKeepsInv(s, t);
    case Rollback(t) => RollbackKeepsInv(s, t);
  }

  // ---------------------------------------------------------------------
  // Whole runs
  // ---------------------------------------------------------------------

  ghost predicate IsRun(states: seq<State>, steps: seq<Step>) {
    && |states| == |steps| + 1
    && states[0] == Initial
    && forall i :: 0 <= i < |steps| ==> Enabled(states[i], steps[i]) && states[i + 1] == Next(states[i], steps[i])
  }

  lemma {:induction false} RunKeepsInv(states: seq<State>, steps: seq<Step>, i: nat)
    requires IsRun(states, steps) && i < |states|
    ensures Inv(states[i])
  {
    if i == 0 {
      InitialInv();
    } else {
      RunKeepsInv(states, steps, i - 1);
      StepKeepsInv(states[i - 1], steps[i - 1]);
    }
  }

  /** In every reachable state the schema holds: no workspace has two active
      connections, and lifecycle timestamps agree with the status. */
  lemma SchemaHoldsThroughout(states: seq<State>, steps: seq<Step>, i: nat)
    requires IsRun(states, steps) && i < |states|
    ensures SchemaHolds(states[i].rows)
  {
    RunKeepsInv(states, steps, i);
  }

  /** In every reachable state each stored row opens to the plaintext last
      committed for it under the keyring of the process that sealed it, and
      under any keyring at all it opens to that plaintext or not at all. */
  lemma CredentialsSurvive(states: seq<State>, steps: seq<Step>, i: nat, id: Id, any: Keyring)
    requires IsRun(states, steps) && i < |states| && id in states[i].rows
    ensures id in states[i].secret
    ensures Carries(states[i].rings, id, states[i].rows[id], states[i].secret[id])
    ensures var result := any.Open(states[i].rows[id].Secret(), SecretAad(id));
            result.Ok? ==> result.value == states[i].secret[id]
  {
    RunKeepsInv(states, steps, i);
    var s := states[i];
    assert Carries(s.rings, id, s.rows[id], s.secret[id]);
    var ring :| ring in s.rings && ring.Open(s.rows[id].Secret(), SecretAad(id)) == Ok(s.secret[id]);
    if any.Open(s.rows[id].Secret(), SecretAad(id)).Ok? {
      OpenAgrees(any, ring, s.rows[id].Secret(), SecretAad(id));
    }
  }

  ghost predicate RowAdvances(s: State, s': State, id: Id) {
    && s.born <= s'.born
    && (id in s.rows && id in s'.rows ==>
          && Evolves(s.rows[id], s'.rows[id])
          && id in s.secret && id in s'.secret
          && (!s.rows[id].status.Draft? ==> s'.secret[id] == s.secret[id]))
    && (id in s.born && id !in s.rows ==> id !in s'.rows)
  }

  lemma OnlyCommitPublishes(s: State, step: Step)
    requires Enabled(s, step) && !step.Commit?
    ensures var s' := Next(s, step); s'.rows == s.rows && s'.secret == s.secret && s'.born == s.born
  {
    hide View, RewriteStatement, NewRow, StatementChanges, RewriteStored, SchemaHolds;
  }

  lemma CommitAdvances(s: State, t: nat, id: Id)
    requires TableOk(s) && t in s.txs && TxOk(s, s.txs[t])
    ensures RowAdvances(s, Next(s, Commit(t)), id)
  {
    hide SchemaHolds, WorkOk, Carries, RowChecks, OneActive;
    var tx := s.txs[t];
    if id in tx.pending && tx.pending[id].Some? {
      assert PendingOk(s, tx, id, tx.pending[id].value);
    }
  }

  lemma SameRowsAdvance(s: State, s': State, id: Id)
    requires s.rows.Keys <= s.secret.Keys
    requires s'.rows == s.rows && s'.secret == s.secret && s'.born == s.born
    ensures RowAdvances(s, s', id)
  {
  }

  lemma StepAdvances(s: State, step: Step, id: Id)
    requires Inv(s) && Enabled(s, step)
    ensures RowAdvances(s, Next(s, step), id)
  {
    hide Next, Enabled, TxOk, Apart, RowAdvances, SchemaHolds, Carries;
    if step.Commit? {
      CommitIsOnATx(s, step);
      CommitAdvances(s, step.t, id);
    } else {
      OnlyCommitPublishes(s, step);
      SameRowsAdvance(s, Next(s, step), id);
    }
  }

  lemma CommitIsOnATx(s: State, step: Step)
    requires Enabled(s, step) && step.Commit?
    ensures step.t in s.txs && step == Commit(step.t)
  {
  }

  /** How a row stood at a and stands at b: evolved, its credential settled once it
      had left draft, its id known to have been used. */
  ghost predicate Settled(a: State, b: State, id: Id)
    requires id in a.rows
  {
    && id in b.born
    && (id in b.rows ==>
          && Evolves(a.rows[id], b.rows[id])
          && id in a.secret && id in b.secret
          && (!a.rows[id].status.Draft? ==> b.secret[id] == a.secret[id]))
  }

  lemma SettledAtOnce(s: State, id: Id)
    requires TableOk(s) && id in s.rows
    ensures Settled(s, s, id)
  {
    hide SchemaHolds, Carries;
  }

  lemma StaysSettled(a: State, b: State, c: State, id: Id)
    requires id in a.rows && Settled(a, b, id) && RowAdvances(b, c, id)
    ensures Settled(a, c, id)
    ensures id !in b.rows ==> id !in c.rows
  {
    hide Evolves;
    if id in b.rows && id in c.rows {
      EvolvesTransitive(a.rows[id], b.rows[id], c.rows[id]);
      if !a.rows[id].status.Draft? { LeftDraft(a.rows[id], b.rows[id]); }
    }
  }

  lemma LeftDraft(a: Row, b: Row)
    requires Evolves(a, b) && !a.status.Draft?
    ensures !b.status.Draft?
  {
  }

  /** Across any stretch of any run a row only evolves, its credential is settled
      once it has left draft, and, as inserts bring ids never used before, an id that
      has gone never comes back. */
  lemma {:induction false} HistoryIsSettled(states: seq<State>, steps: seq<Step>, i: nat, j: nat, id: Id)
    requires IsRun(states, steps) && i <= j < |states| && id in states[i].rows
    ensures Settled(states[i], states[j], id)
    ensures forall m :: i <= m <= j && id !in states[m].rows ==> id !in states[j].rows
  {
    hide Settled, Inv, TableOk, TxOk, Apart, Evolves, RowAdvances, Next, Enabled;
    RunKeepsInv(states, steps, i);
    if i < j {
      HistoryIsSettled(states, steps, i, j - 1, id);
      RunKeepsInv(states, steps, j - 1);
      RunStep(states, steps, j - 1);
      StepAdvances(states[j - 1], steps[j - 1], id);
      StaysSettled(states[i], states[j - 1], states[j], id);
    } else {
      InvHoldsTable(states[i]);
      SettledAtOnce(states[i], id);
    }
  }

  lemma RunStep(states: seq<State>, steps: seq<Step>, i: nat)
    requires IsRun(states, steps) && i < |steps|
    ensures Enabled(states[i], steps[i]) && states[i + 1] == Next(states[i], steps[i])
  {
    hide Enabled, Next;
  }

  lemma InvHoldsTable(s: State)
    requires Inv(s)
    ensures TableOk(s)
  {
    hide TableOk, TxOk, Apart;
  }

  /** Once a row has left draft, every keyring that opens it later opens it to
      what any keyring opened it to before. */
  lemma SettledCredential(states: seq<State>, steps: seq<Step>, i: nat, j: nat, id: Id, a: Keyring, b: Keyring)
    requires IsRun(states, steps) && i <= j < |states|
    requires id in states[i].rows && id in states[j].rows && !states[i].rows[id].status.Draft?
    requires a.Open(states[i].rows[id].Secret(), SecretAad(id)).Ok?
    requires b.Open(states[j].rows[id].Secret(), SecretAad(id)).Ok?
    ensures a.Open(states[i].rows[id].Secret(), SecretAad(id)) == b.Open(states[j].rows[id].Secret(), SecretAad(id))
    ensures SameConfig(states[i].rows[id], states[j].rows[id])
    ensures !states[j].rows[id].status.Draft?
  {
    hide Evolves, Inv, Carries;
    HistoryIsSettled(states, steps, i, j, id);
    SettledConfig(states[i].rows[id], states[j].rows[id]);
    CredentialsSurvive(states, steps, i, id, a);
    CredentialsSurvive(states, steps, j, id, b);
  }

  lemma SettledConfig(a: Row, b: Row)
    requires Evolves(a, b) && !a.status.Draft?
    ensures SameConfig(a, b) && !b.status.Draft?
  {
  }

  /** Why the lock is there: with the version guard alone, a credential replaced
      between a rotator's read and its write comes back exactly when the writer sealed
      it under the version the rotator had read; under any other the guard holds. */
  lemma GuardAloneResurrects(t: Table, id: Id, writer: Keyring, rotator: Keyring,
                             oldSecret: string, newSecret: string, n1: Nonce, n2: Nonce, patch: ConfigPatch, now: Time)
    requires id in t && t[id].status.Draft?
    requires rotator.Open(t[id].Secret(), SecretAad(id)) == Ok(oldSecret)
    requires oldSecret != "" && newSecret != "" && oldSecret != newSecret
    ensures var replaced := writer.Seal(newSecret, SecretAad(id), n1).value;
            var edited := UpdateSeen(t, EditDraft(id, patch, Some(replaced), now), t.Keys);
            var again := rotator.Seal(oldSecret, SecretAad(id), n2).value;
            var written := UpdateSeen(edited, ReSeal(id, t[id].secretKeyVersion, again), t.Keys);
            && writer.Open(edited[id].Secret(), SecretAad(id)) == Ok(newSecret)
            && (rotator.Open(written[id].Secret(), SecretAad(id)) == Ok(oldSecret)
                <==> writer.current == t[id].secretKeyVersion)
  {
    var replaced := writer.Seal(newSecret, SecretAad(id), n1).value;
    var edited := UpdateSeen(t, EditDraft(id, patch, Some(replaced), now), t.Keys);
    assert edited[id].Secret() == replaced;
    var again := rotator.Seal(oldSecret, SecretAad(id), n2).value;
    var written := UpdateSeen(edited, ReSeal(id, t[id].secretKeyVersion, again), t.Keys);
    if writer.current == t[id].secretKeyVersion {
      assert written[id].Secret() == again;
    } else {
      assert written[id] == edited[id];
    }
  }
}
