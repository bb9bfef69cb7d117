/** What whole transactions leave behind: what the committed table is after them, beside
    any other transactions, and that each ends where the repository's own operation on
    the committed table would have. */
module TransactionEffects {
  import opened Prelude
  import opened Secrets
  import opened ConnectionModel
  import opened ConnectionTable
  import opened Transactions
  import Repository
  import Rotation

  // ---------------------------------------------------------------------
  // Stretches of a run
  // ---------------------------------------------------------------------

  predicate CanRun(s: State, steps: seq<Step>)
    decreases |steps|
  {
    steps == [] || (Enabled(s, steps[0]) && CanRun(Next(s, steps[0]), steps[1..]))
  }

  function After(s: State, steps: seq<Step>): State
    requires CanRun(s, steps)
    decreases |steps|
  {
    if steps == [] then s else After(Next(s, steps[0]), steps[1..])
  }

  lemma NothingRun(s: State)
    ensures CanRun(s, []) && After(s, []) == s
  {
  }

  lemma RunMore(s: State, step: Step, rest: seq<Step>)
    ensures CanRun(s, [step] + rest) <==> Enabled(s, step) && CanRun(Next(s, step), rest)
    ensures CanRun(s, [step] + rest) ==> After(s, [step] + rest) == After(Next(s, step), rest)
  {
    hide Enabled, Next;
    assert ([step] + rest)[1..] == rest;
  }

  /** One more step at the end. */
  lemma {:induction false} RunOn(s: State, steps: seq<Step>, step: Step)
    ensures CanRun(s, steps + [step]) <==> CanRun(s, steps) && Enabled(After(s, steps), step)
    ensures CanRun(s, steps + [step]) ==> After(s, steps + [step]) == Next(After(s, steps), step)
    decreases |steps|
  {
    hide Enabled, Next;
    if steps == [] {
      assert [] + [step] == [step] + [];
      RunMore(s, step, []);
    } else {
      assert steps + [step] == [steps[0]] + (steps[1..] + [step]);
      if Enabled(s, steps[0]) { RunOn(Next(s, steps[0]), steps[1..], step); }
      RunMore(s, steps[0], steps[1..] + [step]);
    }
  }

  // ---------------------------------------------------------------------
  // What one step does
  // ---------------------------------------------------------------------

  /** What transaction t sees: the committed table with its own pending rows on top. */
  function Sees(s: State, t: nat): Table
    requires t in s.txs
  {
    View(s.rows, s.txs[t].pending)
  }

  lemma NothingPending(rows: Table)
    ensures View(rows, map[]) == rows
  {
  }

  lemma BeginSees(s: State, t: nat, ring: Keyring)
    requires t !in s.txs
    ensures Enabled(s, Begin(t, ring))
    ensures var s' := Next(s, Begin(t, ring));
            && s'.rows == s.rows && s'.secret == s.secret && s'.born == s.born && s'.rings == s.rings + {ring}
            && s'.txs == s.txs[t := Tx(ring, {}, map[], map[], NoWork)]
            && Sees(s', t) == s.rows
  {
    NothingPending(s.rows);
  }

  /** Nothing but transaction t's own record moves, and its keyring stays. */
  ghost predicate OnlyOwn(s: State, s': State, t: nat)
    requires t in s.txs
  {
    && s' == s.(txs := s'.txs) && s'.txs.Keys == s.txs.Keys
    && (forall u :: u in s.txs && u != t ==> s'.txs[u] == s.txs[u])
    && s'.txs[t].ring == s.txs[t].ring && s.txs[t].locks <= s'.txs[t].locks
  }

  lemma TouchIsOwn(s: State, t: nat, changes: map<Id, Option<Row>>, stored: map<Id, string>)
    requires t in s.txs
    ensures OnlyOwn(s, Executed(s, t, changes, stored), t)
    ensures Executed(s, t, changes, stored).txs[t] == Touch(s.txs[t], changes, stored)
    ensures Touch(s.txs[t], changes, stored).work.NoWork?
  {
  }

  lemma UpdateSees(s: State, t: nat, st: Statement, seen: set<Id>)
    requires Enabled(s, Update(t, st, seen))
    ensures t in s.txs
    ensures var s' := Next(s, Update(t, st, seen));
            && OnlyOwn(s, s', t) && s'.txs[t].work.NoWork? && s'.txs[t].stored == s.txs[t].stored
            && Sees(s', t) == UpdateSeen(Sees(s, t), st, seen)
  {
    UpdateIsAllowed(s, t, st, seen);
    UpdateIs(s, t, st, seen);
    hide Enabled, Next, View, UpdateSeen, StatementChanges, Executed, OnlyOwn;
    ViewAfterStatement(s.rows, s.txs[t], st, seen, map[]);
    TouchIsOwn(s, t, StatementChanges(Sees(s, t), st, seen), map[]);
    assert s.txs[t].stored + map[] == s.txs[t].stored;
    ExecutedRows(s, t, StatementChanges(Sees(s, t), st, seen), map[]);
  }

  lemma ExecutedRows(s: State, t: nat, changes: map<Id, Option<Row>>, stored: map<Id, string>)
    requires t in s.txs
    ensures Executed(s, t, changes, stored).rows == s.rows
  {
  }

  lemma RewriteSees(s: State, step: Step)
    requires step.Rewrite? && Enabled(s, step)
    ensures step.t in s.txs && step.plaintext != ""
    ensures var t, s' := step.t, Next(s, step);
            var sealed := s.txs[t].ring.Seal(step.plaintext, SecretAad(step.id), step.nonce).value;
            && OnlyOwn(s, s', t) && s'.txs[t].work.NoWork?
            && Sees(s', t) == UpdateSeen(Sees(s, t), EditDraft(step.id, step.patch, Some(sealed), step.now), step.seen)
  {
    hide View, UpdateSeen, StatementChanges, RewriteStored, OnlyOwn, Unlocked, Storable, Affected;
    var tx, view := s.txs[step.t], Sees(s, step.t);
    var st := RewriteStatement(tx, step.id, step.patch, step.plaintext, step.nonce, step.now);
    var stored := RewriteStored(view, step.id, step.plaintext, st, step.seen);
    ViewAfterStatement(s.rows, tx, st, step.seen, stored);
    TouchIsOwn(s, step.t, StatementChanges(view, st, step.seen), stored);
  }

  lemma InsertSees(s: State, step: Step)
    requires step.Insert? && Enabled(s, step)
    ensures step.t in s.txs && step.plaintext != ""
    ensures var t, s' := step.t, Next(s, step);
            var sealed := s.txs[t].ring.Seal(step.plaintext, SecretAad(step.c.id), step.nonce).value;
            && OnlyOwn(s, s', t) && s'.txs[t].work.NoWork?
            && s'.txs[t].stored == s.txs[t].stored[step.c.id := step.plaintext]
            && Sees(s', t) == Sees(s, t)[step.c.id := RowFrom(step.c, sealed)]
  {
    hide View, OnlyOwn, Unlocked, RowChecks, RawKeyring.Seal, RowFrom;
    var tx := s.txs[step.t];
    var row := NewRow(tx, step.c, step.plaintext, step.nonce);
    ViewAfterOne(s.rows, tx, step.c.id, Some(row), map[step.c.id := step.plaintext]);
    TouchIsOwn(s, step.t, map[step.c.id := Some(row)], map[step.c.id := step.plaintext]);
  }

  lemma RemoveSees(s: State, t: nat, id: Id)
    requires Enabled(s, Remove(t, id))
    ensures t in s.txs
    ensures var s' := Next(s, Remove(t, id));
            && OnlyOwn(s, s', t) && s'.txs[t].work.NoWork? && s'.txs[t].stored == s.txs[t].stored
            && Sees(s', t) == Sees(s, t) - {id}
  {
    hide View, OnlyOwn, Unlocked;
    ViewAfterOne(s.rows, s.txs[t], id, None, map[]);
    TouchIsOwn(s, t, map[id := None], map[]);
    assert s.txs[t].stored + map[] == s.txs[t].stored;
  }

  lemma LockSees(s: State, t: nat, id: Id)
    requires Enabled(s, LockRow(t, id))
    ensures t in s.txs && id in Sees(s, t)
    ensures var s' := Next(s, LockRow(t, id));
            && OnlyOwn(s, s', t) && s'.txs[t].work == Locked(id, Sees(s, t)[id].Secret())
            && s'.txs[t].stored == s.txs[t].stored && Sees(s', t) == Sees(s, t)
  {
    hide View, Unlocked;
  }

  lemma OpenSees(s: State, t: nat)
    requires Enabled(s, OpenRead(t))
    ensures t in s.txs && s.txs[t].work.Locked?
    ensures var s', w := Next(s, OpenRead(t)), s.txs[t].work;
            var result := s.txs[t].ring.Open(w.read, SecretAad(w.id));
            && result.Ok?
            && OnlyOwn(s, s', t) && s'.txs[t].work == Opened(w.id, w.read, result.value)
            && s'.txs[t].stored == s.txs[t].stored && Sees(s', t) == Sees(s, t)
  {
    hide View, RawKeyring.Open;
  }

  lemma SealSees(s: State, t: nat, nonce: Nonce)
    requires Enabled(s, SealAgain(t, nonce))
    ensures t in s.txs && s.txs[t].work.Opened? && s.txs[t].work.plaintext != ""
    ensures var s', w := Next(s, SealAgain(t, nonce)), s.txs[t].work;
            && OnlyOwn(s, s', t) && s'.txs[t].stored == s.txs[t].stored && Sees(s', t) == Sees(s, t)
            && s'.txs[t].work == Wrapped(w.id, w.read.keyVersion, w.plaintext,
                                         s.txs[t].ring.Seal(w.plaintext, SecretAad(w.id), nonce).value)
  {
    hide View, RawKeyring.Seal;
  }

  lemma WriteSees(s: State, t: nat)
    requires Enabled(s, WriteBack(t))
    ensures t in s.txs && s.txs[t].work.Wrapped? && s.txs[t].work.id in Sees(s, t)
    ensures var s', w := Next(s, WriteBack(t)), s.txs[t].work;
            && OnlyOwn(s, s', t) && s'.txs[t].work.NoWork? && s'.txs[t].stored == s.txs[t].stored
            && Sees(s', t) == Sees(s, t)[w.id := Sees(s, t)[w.id].WithSecret(w.wrapped)]
  {
    hide View, OnlyOwn;
    var tx := s.txs[t];
    var r := Sees(s, t)[tx.work.id].WithSecret(tx.work.wrapped);
    ViewAfterOne(s.rows, tx, tx.work.id, Some(r), map[]);
    TouchIsOwn(s, t, map[tx.work.id := Some(r)], map[]);
    assert s.txs[t].stored + map[] == s.txs[t].stored;
  }

  lemma CommitShows(s: State, t: nat)
    requires t in s.txs
    ensures Enabled(s, Commit(t)) && Enabled(s, Rollback(t))
    ensures var s' := Next(s, Commit(t));
            s'.rows == Sees(s, t) && s'.txs == s.txs - {t} && s'.secret == s.secret + s.txs[t].stored
    ensures var s' := Next(s, Rollback(t));
            s'.rows == s.rows && s'.txs == s.txs - {t} && s'.secret == s.secret && s'.born == s.born
  {
    hide View;
  }

  // ---------------------------------------------------------------------
  // Whole transactions, each from any state the invariant allows
  // ---------------------------------------------------------------------

  /** No transaction under way holds any of these rows. */
  ghost predicate Spared(s: State, ids: set<Id>) {
    forall u :: u in s.txs ==> s.txs[u].locks !! ids
  }

  /** No transaction under way holds anything. */
  ghost predicate Idle(s: State) { forall u :: u in s.txs ==> s.txs[u].locks == {} }

  lemma GoneAgain(s: State, a: map<nat, Tx>, t: nat)
    requires t !in s.txs && a.Keys == s.txs.Keys + {t} && forall u :: u in s.txs ==> a[u] == s.txs[u]
    ensures a - {t} == s.txs
  {
  }

  /** The credential as this keyring seals it for the row. */
  function SealedBy(ring: Keyring, id: Id, p: string, nonce: Nonce): Sealed
    requires p != ""
  {
    ring.Seal(p, SecretAad(id), nonce).value
  }

  lemma AddOne<K, V>(m: map<K, V>, nothing: map<K, V>, k: K, v: V)
    requires nothing == map[]
    ensures m + nothing[k := v] == m[k := v]
  {
  }

  /** Where t, begun in s, has got to in b: nobody else has moved. */
  ghost predicate Beside(s: State, b: State, t: nat, ring: Keyring) {
    && t !in s.txs && b.rows == s.rows && b.secret == s.secret && b.born == s.born
    && b.txs.Keys == s.txs.Keys + {t} && b.txs[t].ring == ring
    && forall u :: u in s.txs ==> b.txs[u] == s.txs[u]
  }

  lemma Begun(s: State, t: nat, ring: Keyring)
    requires t !in s.txs
    ensures CanRun(s, [Begin(t, ring)])
    ensures var b := After(s, [Begin(t, ring)]);
            && Beside(s, b, t, ring) && t in b.txs && b.txs[t].ring == ring && Sees(b, t) == s.rows
            && b.txs[t].work.NoWork? && b.txs[t].pending == map[] && b.txs[t].stored == map[]
  {
    BeginSees(s, t, ring);
    hide Enabled, Next, Sees;
    NothingRun(Next(s, Begin(t, ring)));
    RunMore(s, Begin(t, ring), []);
    assert [Begin(t, ring)] + [] == [Begin(t, ring)];
  }

  lemma StillBeside(s: State, b: State, c: State, t: nat, ring: Keyring)
    requires Beside(s, b, t, ring) && OnlyOwn(b, c, t)
    ensures Beside(s, c, t, ring)
  {
  }

  /** A commit publishes what its transaction saw, with the plaintexts it put in. */
  lemma Finish(s: State, steps: seq<Step>, t: nat, ring: Keyring)
    requires CanRun(s, steps) && Beside(s, After(s, steps), t, ring)
    ensures CanRun(s, steps + [Commit(t)])
    ensures var b, s' := After(s, steps), After(s, steps + [Commit(t)]);
            s'.rows == Sees(b, t) && s'.secret == s.secret + b.txs[t].stored && s'.txs == s.txs
  {
    hide Enabled, Next, CanRun, After, Sees;
    CommitShows(After(s, steps), t);
    RunOn(s, steps, Commit(t));
    GoneAgain(s, After(s, steps).txs, t);
  }

  lemma BesideSpares(s: State, b: State, t: nat, ring: Keyring, ids: set<Id>)
    requires Beside(s, b, t, ring) && Spared(s, ids)
    ensures Unlocked(b, t, ids)
  {
  }

  /** A transaction of one statement can run if the statement can, and leaves what that
      statement showed it. */
  lemma OneStatement(s: State, t: nat, ring: Keyring, step: Step)
    requires t !in s.txs
    requires var a := Next(s, Begin(t, ring)); Enabled(a, step) ==> OnlyOwn(a, Next(a, step), t)
    ensures var steps := [Begin(t, ring), step, Commit(t)];
            var a := Next(s, Begin(t, ring));
            && (CanRun(s, steps) <==> Enabled(a, step))
            && (CanRun(s, steps) ==>
                  var s', b := After(s, steps), Next(a, step);
                  t in b.txs && s'.rows == Sees(b, t) && s'.secret == s.secret + b.txs[t].stored && s'.txs == s.txs)
  {
    BeginSees(s, t, ring);
    Begun(s, t, ring);
    hide Enabled, Next, CanRun, After, Sees, OnlyOwn, Beside;
    var begun := [Begin(t, ring)];
    assert After(s, begun) == Next(s, Begin(t, ring)) by { FirstStep(s, Begin(t, ring)); }
    assert begun + [step] == [Begin(t, ring), step];
    assert [Begin(t, ring), step] + [Commit(t)] == [Begin(t, ring), step, Commit(t)];
    RunOn(s, begun, step);
    RunOn(s, begun + [step], Commit(t));
    if Enabled(After(s, begun), step) {
      StillBeside(s, After(s, begun), After(s, begun + [step]), t, ring);
      Finish(s, begun + [step], t, ring);
    }
  }

  lemma FirstStep(s: State, step: Step)
    requires Enabled(s, step)
    ensures CanRun(s, [step]) && After(s, [step]) == Next(s, step)
  {
    hide Enabled, Next;
    NothingRun(Next(s, step));
    RunMore(s, step, []);
    assert [step] + [] == [step];
  }

  /** A new draft is there as given, and its credential opens to what was put in. */
  lemma CreateCommits(s: State, t: nat, ring: Keyring, c: Connection, p: string, nonce: Nonce)
    requires t !in s.txs && Spared(s, {c.id})
    requires c.status.Draft? && c.id !in s.born && p != ""
    requires RowChecks(RowFrom(c, SealedBy(ring, c.id, p, nonce)))
    ensures var steps := [Begin(t, ring), Insert(t, c, p, nonce), Commit(t)];
            && CanRun(s, steps)
            && var s' := After(s, steps);
               && s'.rows == s.rows[c.id := RowFrom(c, SealedBy(ring, c.id, p, nonce))]
               && s'.secret == s.secret[c.id := p] && s'.txs == s.txs
               && ring.Open(s'.rows[c.id].Secret(), SecretAad(c.id)) == Ok(p)
  {
    hide Enabled, Next, CanRun, After, RowChecks, RawKeyring.Open, RawKeyring.Seal, Row.Secret, RowFrom, Sees, Unlocked,
         Spared;
    BeginSees(s, t, ring);
    SealThenOpen(ring, ring, p, SecretAad(c.id), nonce);
    var a, insert := Next(s, Begin(t, ring)), Insert(t, c, p, nonce);
    BesideSpares(s, a, t, ring, {c.id});
    InsertIsEnabled(a, insert);
    InsertSees(a, insert);
    OneStatement(s, t, ring, insert);
    RowRoundTrip(c, SealedBy(ring, c.id, p, nonce), RowFrom(c, SealedBy(ring, c.id, p, nonce)), c.id);
    AddOne(s.secret, a.txs[t].stored, c.id, p);
  }

  lemma InsertIsEnabled(s: State, step: Step)
    requires step.Insert? && step.t in s.txs && s.txs[step.t].work.NoWork? && s.txs[step.t].pending == map[]
    requires step.plaintext != "" && step.c.status.Draft? && step.c.id !in s.born && Unlocked(s, step.t, {step.c.id})
    requires RowChecks(RowFrom(step.c, SealedBy(s.txs[step.t].ring, step.c.id, step.plaintext, step.nonce)))
    ensures Enabled(s, step)
  {
    hide View, RowChecks, Unlocked, RawKeyring.Seal;
  }

  // ---------------------------------------------------------------------
  // Statements
  // ---------------------------------------------------------------------

  /** With nobody in the way a statement is refused exactly when the database would
      refuse it, and otherwise leaves what it leaves of the committed table. */
  lemma StatementCommits(s: State, t: nat, ring: Keyring, st: Statement)
    requires Inv(s) && t !in s.txs && Idle(s)
    requires Storable(st) && !st.ReSeal? && (st.EditDraft? ==> st.sealed.None?)
    ensures var steps := [Begin(t, ring), Update(t, st, s.rows.Keys), Commit(t)];
            && (CanRun(s, steps) <==> Execute(s.rows, st).Updated?)
            && (CanRun(s, steps) ==>
                  var s' := After(s, steps);
                  s'.rows == Execute(s.rows, st).table && s'.secret == s.secret && s'.txs == s.txs)
  {
    hide Enabled, Next, CanRun, After, Inv, Execute, Storable, Sees, Idle;
    BeginSees(s, t, ring);
    var a, step := Next(s, Begin(t, ring)), Update(t, st, s.rows.Keys);
    StatementIsEnabled(s, a, t, st);
    ExecuteIs(s.rows, st);
    if Enabled(a, step) { UpdateSees(a, t, st, s.rows.Keys); }
    OneStatement(s, t, ring, step);
    assert s.secret + map[] == s.secret;
  }

  lemma ExecuteIs(t: Table, st: Statement)
    requires AllChecks(t) && Storable(st)
    ensures Execute(t, st).Updated? <==> OneActive(UpdateSeen(t, st, t.Keys))
    ensures Execute(t, st).Updated? ==> Execute(t, st).table == UpdateSeen(t, st, t.Keys)
  {
    UpdateKeepsChecks(t, st, t.Keys);
  }

  lemma IdleIsFree(s: State, a: State, t: nat, tx: Tx, ids: set<Id>, w: Id)
    requires Inv(s) && Idle(s) && t !in s.txs && t in a.txs && a.txs == s.txs[t := tx]
    ensures Unlocked(a, t, ids) && SlotFree(a, t, w)
  {
    forall u | u in a.txs && u != t ensures a.txs[u].locks == {} && a.txs[u].pending.Keys == {} {
      assert TxOk(s, s.txs[u]);
    }
  }

  lemma UpdateEnabledIff(a: State, t: nat, st: Statement, seen: set<Id>)
    requires t in a.txs && a.txs[t].work.NoWork? && Storable(st) && !st.ReSeal? && (st.EditDraft? ==> st.sealed.None?)
    requires Unlocked(a, t, Affected(Sees(a, t), st, seen))
    requires forall id :: id in Affected(Sees(a, t), st, seen) ==> SlotFree(a, t, Sees(a, t)[id].workspaceId)
    ensures Enabled(a, Update(t, st, seen)) <==> (st.PromoteDraft? ==> OneActive(UpdateSeen(Sees(a, t), st, seen)))
  {
    hide View, Storable, UpdateSeen, Unlocked, SlotFree, OneActive;
  }

  lemma StatementIsEnabled(s: State, a: State, t: nat, st: Statement)
    requires Inv(s) && Idle(s) && t !in s.txs && a.rows == s.rows
    requires t in a.txs && a.txs == s.txs[t := a.txs[t]] && a.txs[t].work.NoWork? && Sees(a, t) == s.rows
    requires Storable(st) && !st.ReSeal? && (st.EditDraft? ==> st.sealed.None?)
    ensures Enabled(a, Update(t, st, s.rows.Keys)) <==> OneActive(UpdateSeen(s.rows, st, s.rows.Keys))
    ensures AllChecks(s.rows)
  {
    hide Enabled, Inv, Idle, Sees, Storable, UpdateSeen, Unlocked, SlotFree, OneActive, Affected, AllChecks;
    InvSchema(s);
    AffectedAreThere(s.rows, st, s.rows.Keys);
    IdleIsFree(s, a, t, a.txs[t], Affected(s.rows, st, s.rows.Keys), 0);
    forall id | id in Affected(s.rows, st, s.rows.Keys) ensures SlotFree(a, t, Sees(a, t)[id].workspaceId) {
      IdleIsFree(s, a, t, a.txs[t], {}, s.rows[id].workspaceId);
    }
    UpdateEnabledIff(a, t, st, s.rows.Keys);
    if !st.PromoteDraft? { StatementKeepsOneActive(s.rows, st, s.rows.Keys); }
  }

  lemma AffectedAreThere(t: Table, st: Statement, seen: set<Id>)
    ensures Affected(t, st, seen) <= t.Keys
  {
  }

  lemma InvSchema(s: State)
    requires Inv(s)
    ensures SchemaHolds(s.rows) && AllChecks(s.rows) && OneActive(s.rows)
  {
  }

  /** An edit that replaces the credential leaves what the statement leaves with the new
      one sealed in it, and a row that was edited opens to it. */
  lemma RewriteCommits(s: State, t: nat, ring: Keyring, id: Id, patch: ConfigPatch, p: string, nonce: Nonce, now: Time)
    requires Inv(s) && t !in s.txs && Spared(s, {id}) && p != ""
    requires Storable(EditDraft(id, patch, Some(SealedBy(ring, id, p, nonce)), now))
    ensures var steps := [Begin(t, ring), Rewrite(t, id, patch, p, nonce, now, s.rows.Keys), Commit(t)];
            var st := EditDraft(id, patch, Some(SealedBy(ring, id, p, nonce)), now);
            && CanRun(s, steps) && Execute(s.rows, st).Updated?
            && var s' := After(s, steps);
               && s'.rows == Execute(s.rows, st).table && s'.txs == s.txs
               && (id in s.rows && s.rows[id].status.Draft? ==>
                     && s'.secret == s.secret[id := p]
                     && id in s'.rows && ring.Open(s'.rows[id].Secret(), SecretAad(id)) == Ok(p))
               && (!(id in s.rows && s.rows[id].status.Draft?) ==> s'.rows == s.rows && s'.secret == s.secret)
  {
    hide Enabled, Next, CanRun, After, Inv, Execute, Storable, RawKeyring.Seal, RawKeyring.Open, Sees, Spared, Unlocked,
         UpdateSeen, SchemaHolds, AllChecks, OneActive, OnlyOwn, Row.Secret, Beside;
    BeginSees(s, t, ring);
    var a, step := Next(s, Begin(t, ring)), Rewrite(t, id, patch, p, nonce, now, s.rows.Keys);
    BesideSpares(s, a, t, ring, {id});
    var sealed := SealedBy(ring, id, p, nonce);
    var st := EditDraft(id, patch, Some(sealed), now);
    SealThenOpen(ring, ring, p, SecretAad(id), nonce);
    RewriteIsEnabled(a, step);
    RewriteSees(a, step);
    OneStatement(s, t, ring, step);
    InvSchema(s);
    ExecuteIs(s.rows, st);
    StatementKeepsOneActive(s.rows, st, s.rows.Keys);
    EditedRow(s.rows, id, patch, sealed, now);
    RewriteStores(a, step);
    AddOne(s.secret, a.txs[t].stored, id, p);
    assert s.secret + map[] == s.secret;
  }

  lemma RewriteIsEnabled(s: State, step: Step)
    requires step.Rewrite? && step.t in s.txs && s.txs[step.t].work.NoWork? && step.plaintext != ""
    requires Unlocked(s, step.t, {step.id})
    requires Storable(EditDraft(step.id, step.patch,
                                Some(SealedBy(s.txs[step.t].ring, step.id, step.plaintext, step.nonce)), step.now))
    ensures Enabled(s, step)
  {
    hide View, Storable, RawKeyring.Seal;
    var st := RewriteStatement(s.txs[step.t], step.id, step.patch, step.plaintext, step.nonce, step.now);
    assert Affected(View(s.rows, s.txs[step.t].pending), st, step.seen) <= {step.id};
  }

  lemma RewriteStores(s: State, step: Step)
    requires step.Rewrite? && Enabled(s, step) && step.seen == Sees(s, step.t).Keys
    ensures var id := step.id;
            var tx := s.txs[step.t];
            Next(s, step).txs[step.t].stored ==
            if id in Sees(s, step.t) && Sees(s, step.t)[id].status.Draft? then tx.stored[id := step.plaintext]
            else tx.stored
  {
    hide View, StatementChanges, Storable, Unlocked, RawKeyring.Seal;
    var tx := s.txs[step.t];
    AddOne(tx.stored, map[], step.id, step.plaintext);
    assert tx.stored + map[] == tx.stored;
  }

  lemma EditedRow(t: Table, id: Id, patch: ConfigPatch, sealed: Sealed, now: Time)
    ensures var after := UpdateSeen(t, EditDraft(id, patch, Some(sealed), now), t.Keys);
            if id in t && t[id].status.Draft? then id in after && after[id].Secret() == sealed else after == t
  {
  }

  /** Activation as the repository does it, two statements in one transaction: refused
      exactly when the row's own workspace keeps another active connection. */
  lemma ActivationCommits(s: State, t: nat, ring: Keyring, id: Id, workspaceId: Id, now: Time)
    requires Inv(s) && t !in s.txs && Idle(s)
    ensures var steps := [Begin(t, ring), Update(t, RetireIncumbents(workspaceId, id, now), s.rows.Keys),
                          Update(t, PromoteDraft(id, now), s.rows.Keys), Commit(t)];
            && (CanRun(s, steps) <==> !Repository.SlotTakenElsewhere(s.rows, id, workspaceId))
            && (CanRun(s, steps) ==>
                  && After(s, steps).rows == Repository.AfterActivation(s.rows, id, workspaceId, now)
                  && After(s, steps).secret == s.secret && After(s, steps).txs == s.txs)
  {
    hide Enabled, Next, CanRun, After, Inv, Execute, Sees, Idle, UpdateSeen, Repository.AfterActivation,
         Repository.SlotTakenElsewhere, SchemaHolds, OneActive, AllChecks, Beside, OnlyOwn;
    var first, second := RetireIncumbents(workspaceId, id, now), PromoteDraft(id, now);
    var one, two := Update(t, first, s.rows.Keys), Update(t, second, s.rows.Keys);
    var begun := [Begin(t, ring)];
    Begun(s, t, ring);
    var a := After(s, begun);
    IncumbentsGo(s, a, t, ring, first);
    RunOn(s, begun, one);
    var b := After(s, begun + [one]);
    StillBeside(s, a, b, t, ring);
    var middle := Sees(b, t);
    Repository.IncumbentsRetire(s.rows, id, workspaceId, now);
    SchemaParts(middle);
    Repository.PromotionOutcome(s.rows, middle, id, workspaceId, now);
    ExecuteIs(middle, second);
    SecondIsEnabled(s, b, t, ring, second);
    var all := begun + [one] + [two];
    assert all + [Commit(t)] == [Begin(t, ring), one, two, Commit(t)];
    RunOn(s, begun + [one], two);
    RunOn(s, all, Commit(t));
    if Enabled(b, two) {
      UpdateSees(b, t, second, s.rows.Keys);
      StillBeside(s, b, After(s, all), t, ring);
      Finish(s, all, t, ring);
      assert s.secret + map[] == s.secret;
    }
  }

  lemma IncumbentsGo(s: State, a: State, t: nat, ring: Keyring, st: Statement)
    requires Inv(s) && Idle(s) && Beside(s, a, t, ring) && Sees(a, t) == s.rows && a.txs[t].work.NoWork?
    requires st.RetireIncumbents?
    ensures SchemaHolds(s.rows) && Execute(s.rows, st).Updated?
    ensures Enabled(a, Update(t, st, s.rows.Keys))
    ensures var b := Next(a, Update(t, st, s.rows.Keys));
            && OnlyOwn(a, b, t) && b.txs[t].work.NoWork? && b.txs[t].stored == a.txs[t].stored
            && Sees(b, t) == Execute(s.rows, st).table
  {
    hide Enabled, Next, Inv, Execute, Sees, Idle, UpdateSeen, SchemaHolds, OneActive, AllChecks, OnlyOwn;
    InvSchema(s);
    Repository.IncumbentsRetire(s.rows, st.exceptId, st.workspaceId, st.now);
    ExecuteIs(s.rows, st);
    StatementIsEnabled(s, a, t, st);
    UpdateSees(a, t, st, s.rows.Keys);
  }

  lemma SchemaParts(t: Table)
    ensures SchemaHolds(t) <==> AllChecks(t) && OneActive(t)
  {
    hide AllChecks, OneActive;
  }

  lemma SecondIsEnabled(s: State, b: State, t: nat, ring: Keyring, st: Statement)
    requires Inv(s) && Idle(s) && Beside(s, b, t, ring) && b.txs[t].work.NoWork?
    requires st.PromoteDraft? && Sees(b, t).Keys == s.rows.Keys
    ensures Enabled(b, Update(t, st, s.rows.Keys)) <==> OneActive(UpdateSeen(Sees(b, t), st, s.rows.Keys))
  {
    hide Enabled, Inv, Idle, Sees, UpdateSeen, Unlocked, SlotFree, OneActive, Affected;
    var view := Sees(b, t);
    AffectedAreThere(view, st, s.rows.Keys);
    IdleIsFree(s, b, t, b.txs[t], Affected(view, st, s.rows.Keys), 0);
    forall id | id in Affected(view, st, s.rows.Keys) ensures SlotFree(b, t, view[id].workspaceId) {
      IdleIsFree(s, b, t, b.txs[t], {}, view[id].workspaceId);
    }
    UpdateEnabledIff(b, t, st, s.rows.Keys);
  }

  /** Removing a row that serves nobody takes exactly it out. */
  lemma DeleteCommits(s: State, t: nat, ring: Keyring, id: Id)
    requires t !in s.txs && Spared(s, {id}) && id in s.rows
    ensures var steps := [Begin(t, ring), Remove(t, id), Commit(t)];
            && (CanRun(s, steps) <==> !s.rows[id].status.Active?)
            && (CanRun(s, steps) ==>
                  var s' := After(s, steps);
                  s'.rows == s.rows - {id} && s'.secret == s.secret && s'.txs == s.txs)
  {
    hide Enabled, Next, CanRun, After, Sees, Spared, Unlocked;
    BeginSees(s, t, ring);
    var a, step := Next(s, Begin(t, ring)), Remove(t, id);
    BesideSpares(s, a, t, ring, {id});
    RemoveEnabledIff(a, t, id);
    if Enabled(a, step) { RemoveSees(a, t, id); }
    OneStatement(s, t, ring, step);
    assert s.secret + map[] == s.secret;
  }

  lemma RemoveEnabledIff(s: State, t: nat, id: Id)
    requires t in s.txs && s.txs[t].work.NoWork? && Unlocked(s, t, {id}) && id in Sees(s, t)
    ensures Enabled(s, Remove(t, id)) <==> !Sees(s, t)[id].status.Active?
  {
    hide View, Unlocked;
  }

  /** The rotator's transaction over one row, from its lock to its commit. */
  function RotationSteps(t: nat, ring: Keyring, id: Id, nonce: Nonce): seq<Step> {
    [Begin(t, ring), LockRow(t, id), OpenRead(t), SealAgain(t, nonce), WriteBack(t), Commit(t)]
  }

  /** It ends where rotating that one row does, the row on the current version with every
      other column and the plaintext as before. */
  lemma RotationCommits(s: State, t: nat, ring: Keyring, id: Id, nonce: Nonce)
    requires SchemaHolds(s.rows) && t !in s.txs && Spared(s, {id}) && id in s.rows
    requires s.rows[id].secretKeyVersion != ring.current && Rotation.Openable(ring, id, s.rows[id])
    ensures CanRun(s, RotationSteps(t, ring, id, nonce))
    ensures var s' := After(s, RotationSteps(t, ring, id, nonce));
            && s'.rows == Rotation.RotateOne(s.rows, id, ring, nonce, Rotation.NoFault).0
            && id in s'.rows && Rotation.Rewrapped(ring, id, s.rows[id], s'.rows[id])
            && s'.secret == s.secret && s'.txs == s.txs
  {
    hide Enabled, Next, CanRun, After, Sees, Spared, SchemaHolds, RawKeyring.Open, RawKeyring.Seal, Beside, OnlyOwn,
         Row.Secret, Row.WithSecret, Rotation.Rewrapped, Rotation.RotateOne, RotationSteps;
    var begun := [Begin(t, ring)];
    Begun(s, t, ring);
    var a := After(s, begun);
    BesideSpares(s, a, t, ring, {id});
    LockAndOpen(a, t, ring, id);
    var locked := begun + [LockRow(t, id)];
    RunOn(s, begun, LockRow(t, id));
    var read := locked + [OpenRead(t)];
    RunOn(s, locked, OpenRead(t));
    SealAndWrite(After(s, read), t, ring, id, nonce);
    var sealed := read + [SealAgain(t, nonce)];
    RunOn(s, read, SealAgain(t, nonce));
    var written := sealed + [WriteBack(t)];
    RunOn(s, sealed, WriteBack(t));
    StillBeside(s, a, After(s, read), t, ring);
    StillBeside(s, After(s, read), After(s, written), t, ring);
    Finish(s, written, t, ring);
    assert written + [Commit(t)] == RotationSteps(t, ring, id, nonce) by { StepsAre(t, ring, id, nonce); }
    assert s.secret + map[] == s.secret;
    Rotation.RotatedRow(s.rows, id, ring, nonce);
  }

  lemma StepsAre(t: nat, ring: Keyring, id: Id, nonce: Nonce)
    ensures [Begin(t, ring)] + [LockRow(t, id)] + [OpenRead(t)] + [SealAgain(t, nonce)] + [WriteBack(t)] + [Commit(t)]
            == RotationSteps(t, ring, id, nonce)
  {
  }

  /** None of the four actions between the lock and the write can be refused. */
  lemma LockAndOpen(a: State, t: nat, ring: Keyring, id: Id)
    requires t in a.txs && a.txs[t].work.NoWork? && a.txs[t].ring == ring && Unlocked(a, t, {id})
    requires id in Sees(a, t) && Rotation.Openable(ring, id, Sees(a, t)[id])
    ensures Enabled(a, LockRow(t, id)) && Enabled(Next(a, LockRow(t, id)), OpenRead(t))
    ensures var c := Next(Next(a, LockRow(t, id)), OpenRead(t));
            var row := Sees(a, t)[id];
            && OnlyOwn(a, c, t) && t in c.txs && c.txs[t].ring == ring && c.txs[t].stored == a.txs[t].stored
            && c.txs[t].work == Opened(id, row.Secret(), Rotation.Opening(ring, id, row).value)
            && Sees(c, t) == Sees(a, t)
  {
    hide Enabled, Next, Sees, RawKeyring.Open, Row.Secret, Unlocked;
    LockEnabled(a, t, id);
    LockSees(a, t, id);
    OpenEnabled(Next(a, LockRow(t, id)), t);
    OpenSees(Next(a, LockRow(t, id)), t);
  }

  lemma SealAndWrite(c: State, t: nat, ring: Keyring, id: Id, nonce: Nonce)
    requires t in c.txs && c.txs[t].work.Opened? && c.txs[t].ring == ring && c.txs[t].work.plaintext != ""
    requires c.txs[t].work.id == id && id in Sees(c, t) && c.txs[t].work.read == Sees(c, t)[id].Secret()
    ensures Enabled(c, SealAgain(t, nonce)) && Enabled(Next(c, SealAgain(t, nonce)), WriteBack(t))
    ensures var e := Next(Next(c, SealAgain(t, nonce)), WriteBack(t));
            && OnlyOwn(c, e, t) && t in e.txs && e.txs[t].stored == c.txs[t].stored
            && Sees(e, t) ==
               Sees(c, t)[id := Sees(c, t)[id].WithSecret(SealedBy(ring, id, c.txs[t].work.plaintext, nonce))]
  {
    hide Enabled, Next, Sees, RawKeyring.Seal, Row.Secret, Row.WithSecret;
    SealEnabled(c, t, nonce);
    SealSees(c, t, nonce);
    ReadVersion(Sees(c, t)[id]);
    WriteEnabled(Next(c, SealAgain(t, nonce)), t);
    WriteSees(Next(c, SealAgain(t, nonce)), t);
  }

  lemma ReadVersion(r: Row)
    ensures r.Secret().keyVersion == r.secretKeyVersion
  {
  }

  lemma LockEnabled(s: State, t: nat, id: Id)
    requires t in s.txs && s.txs[t].work.NoWork? && id in Sees(s, t) && Unlocked(s, t, {id})
    ensures Enabled(s, LockRow(t, id))
  {
    hide View, Unlocked;
  }

  lemma OpenEnabled(s: State, t: nat)
    requires t in s.txs && s.txs[t].work.Locked?
    requires s.txs[t].ring.Open(s.txs[t].work.read, SecretAad(s.txs[t].work.id)).Ok?
    ensures Enabled(s, OpenRead(t))
  {
    hide View, RawKeyring.Open;
  }

  lemma SealEnabled(s: State, t: nat, nonce: Nonce)
    requires t in s.txs && s.txs[t].work.Opened? && s.txs[t].work.plaintext != ""
    ensures Enabled(s, SealAgain(t, nonce))
  {
    hide View;
  }

  lemma WriteEnabled(s: State, t: nat)
    requires t in s.txs && s.txs[t].work.Wrapped? && s.txs[t].work.id in Sees(s, t)
    requires Sees(s, t)[s.txs[t].work.id].secretKeyVersion == s.txs[t].work.version
    ensures Enabled(s, WriteBack(t))
  {
    hide View;
  }

  // ---------------------------------------------------------------------
  // Beside any other transactions
  // ---------------------------------------------------------------------

  /** Whoever acts, and however they end but by a commit, the committed table stays: a
      transaction that rolls back leaves no trace. */
  lemma {:induction false} RollbackLeavesNoTrace(s: State, steps: seq<Step>)
    requires CanRun(s, steps) && forall x :: x in steps ==> !x.Commit?
    ensures After(s, steps).rows == s.rows && After(s, steps).secret == s.secret && After(s, steps).born == s.born
    decreases |steps|
  {
    hide Enabled, Next;
    if steps != [] {
      assert steps[0] in steps;
      OnlyCommitPublishes(s, steps[0]);
      RollbackLeavesNoTrace(Next(s, steps[0]), steps[1..]);
    }
  }

  /** A table of one's own, and how far one has got with a row of it. */
  datatype Solo = Solo(table: Table, work: Work)

  /** What a step does to it, with nobody else about. */
  function Alone(x: Solo, ring: Keyring, step: Step): Solo {
    match step
    case Update(_, st, seen) => Solo(UpdateSeen(x.table, st, seen), NoWork)
    case Rewrite(_, id, patch, p, nonce, now, seen) =>
      if p == "" then x
      else Solo(UpdateSeen(x.table, EditDraft(id, patch, Some(SealedBy(ring, id, p, nonce)), now), seen), NoWork)
    case Insert(_, c, p, nonce) =>
      if p == "" then x else Solo(x.table[c.id := RowFrom(c, SealedBy(ring, c.id, p, nonce))], NoWork)
    case Remove(_, id) => Solo(x.table - {id}, NoWork)
    case LockRow(_, id) => if id in x.table then x.(work := Locked(id, x.table[id].Secret())) else x
    case OpenRead(_) =>
      if x.work.Locked? && ring.Open(x.work.read, SecretAad(x.work.id)).Ok? then
        x.(work := Opened(x.work.id, x.work.read, ring.Open(x.work.read, SecretAad(x.work.id)).value))
      else x
    case SealAgain(_, nonce) =>
      if x.work.Opened? && x.work.plaintext != "" then
        x.(work := Wrapped(x.work.id, x.work.read.keyVersion, x.work.plaintext,
                           SealedBy(ring, x.work.id, x.work.plaintext, nonce)))
      else x
    case WriteBack(_) =>
      if x.work.Wrapped? && x.work.id in x.table then
        Solo(x.table[x.work.id := x.table[x.work.id].WithSecret(x.work.wrapped)], NoWork)
      else x
    case _ => x
  }

  /** Transaction t's steps of a run, one after another. */
  function AloneAll(x: Solo, ring: Keyring, steps: seq<Step>, t: nat): Solo
    decreases |steps|
  {
    if steps == [] then x
    else AloneAll(if steps[0].t == t then Alone(x, ring, steps[0]) else x, ring, steps[1..], t)
  }

  function Standing(s: State, t: nat): Solo
    requires t in s.txs
  {
    Solo(Sees(s, t), s.txs[t].work)
  }

  lemma StepIsAlone(s: State, step: Step)
    requires Enabled(s, step) && step.t in s.txs && !step.Commit? && !step.Rollback? && !step.Begin?
    ensures var t, s' := step.t, Next(s, step);
            && OnlyOwn(s, s', t) && Standing(s', t) == Alone(Standing(s, t), s.txs[t].ring, step)
  {
    hide Enabled, Next, Sees, UpdateSeen, RawKeyring.Open, RawKeyring.Seal, Row.Secret, Row.WithSecret, RowFrom,
         OnlyOwn;
    match step
    case Update(t, st, seen) => UpdateSees(s, t, st, seen);
    case Rewrite(_, _, _, _, _, _, _) => RewriteSees(s, step);
    case Insert(_, _, _, _) => InsertSees(s, step);
    case Remove(t, id) => RemoveSees(s, t, id);
    case LockRow(t, id) => LockSees(s, t, id);
    case OpenRead(t) => OpenSees(s, t);
    case SealAgain(t, nonce) => SealSees(s, t, nonce);
    case WriteBack(t) => WriteSees(s, t);
    case Begin(_, _) =>
    case Commit(_) =>
    case Rollback(_) =>
  }

  lemma OthersAreUnseen(s: State, step: Step, t: nat)
    requires Enabled(s, step) && step.t != t && t in s.txs && !step.Commit?
    ensures var s' := Next(s, step); t in s'.txs && s'.txs[t] == s.txs[t] && s'.rows == s.rows
  {
    hide View, RewriteStatement, NewRow, StatementChanges, RewriteStored, Storable, Unlocked, SlotFree;
  }

  /** Steps of others in between, as long as none of them commits, do not show. */
  lemma {:induction false} RunIsAlone(s: State, steps: seq<Step>, t: nat)
    requires CanRun(s, steps) && t in s.txs
    requires forall x :: x in steps ==> !x.Commit? && (x.t == t ==> !x.Rollback?)
    ensures var s' := After(s, steps);
            && t in s'.txs && s'.txs[t].ring == s.txs[t].ring
            && Standing(s', t) == AloneAll(Standing(s, t), s.txs[t].ring, steps, t)
    decreases |steps|
  {
    hide Enabled, Next, Sees, Alone, OnlyOwn;
    if steps != [] {
      var step := steps[0];
      assert step in steps;
      if step.t == t {
        BeginIsNew(s, step);
        StepIsAlone(s, step);
        StillThere(s, Next(s, step), t);
      } else {
        OthersAreUnseen(s, step, t);
        SameView(s, Next(s, step), t);
      }
      RunIsAlone(Next(s, step), steps[1..], t);
    }
  }

  lemma BeginIsNew(s: State, step: Step)
    requires Enabled(s, step) && step.t in s.txs
    ensures !step.Begin?
  {
  }

  lemma StillThere(s: State, s': State, t: nat)
    requires t in s.txs && OnlyOwn(s, s', t)
    ensures t in s'.txs && s'.txs[t].ring == s.txs[t].ring
  {
  }

  lemma SameView(s: State, s': State, t: nat)
    requires t in s.txs && t in s'.txs && s'.txs[t] == s.txs[t] && s'.rows == s.rows
    ensures Sees(s', t) == Sees(s, t)
  {
  }

  /** A transaction that begins, does its steps and commits leaves the committed table
      as those steps would leave it if there were nobody else, whatever others do in
      between short of committing. */
  lemma CommitIsSerial(s: State, t: nat, ring: Keyring, steps: seq<Step>)
    requires CanRun(s, [Begin(t, ring)] + steps + [Commit(t)])
    requires forall x :: x in steps ==> !x.Commit? && (x.t == t ==> !x.Rollback?)
    ensures After(s, [Begin(t, ring)] + steps + [Commit(t)]).rows
            == AloneAll(Solo(s.rows, NoWork), ring, steps, t).table
  {
    hide Enabled, Next, CanRun, After, AloneAll, Sees;
    var all := [Begin(t, ring)] + steps;
    RunOn(s, all, Commit(t));
    RunMore(s, Begin(t, ring), steps);
    NewIsNew(s, t, ring);
    BeginSees(s, t, ring);
    RunIsAlone(Next(s, Begin(t, ring)), steps, t);
    CommitShows(After(s, all), t);
  }

  lemma NewIsNew(s: State, t: nat, ring: Keyring)
    requires Enabled(s, Begin(t, ring))
    ensures t !in s.txs
  {
  }

  /** A committed row that a transaction has locked. */
  function RowAt(rows: Table, id: Id): Option<Row> { if id in rows then Some(rows[id]) else None }

  lemma LockedRowStays(s: State, step: Step, t: nat, id: Id)
    requires Inv(s) && Enabled(s, step) && t in s.txs && id in s.txs[t].locks
    requires step.t == t ==> !step.Commit? && !step.Rollback?
    ensures var s' := Next(s, step); RowAt(s'.rows, id) == RowAt(s.rows, id) && t in s'.txs && id in s'.txs[t].locks
  {
    if step.Commit? {
      CommitIsOnATx(s, step);
      CommitSparesLocked(s, step.t, t, id);
      hide Inv, View;
    } else {
      OnlyCommitPublishes(s, step);
      if step.t == t {
        BeginIsNew(s, step);
        StepIsAlone(s, step);
      } else {
        OthersAreUnseen(s, step, t);
      }
      hide Inv, Enabled, Next, View;
    }
  }

  /** From the moment a transaction has touched or locked a row until it ends, nobody
      else's commit changes that row, however many there are. */
  lemma {:induction false} LockedRowsStay(s: State, steps: seq<Step>, t: nat, id: Id)
    requires Inv(s) && CanRun(s, steps) && t in s.txs && id in s.txs[t].locks
    requires forall x :: x in steps && x.t == t ==> !x.Commit? && !x.Rollback?
    ensures RowAt(After(s, steps).rows, id) == RowAt(s.rows, id)
    decreases |steps|
  {
    hide Inv, Enabled, Next;
    if steps != [] {
      assert steps[0] in steps;
      StepKeepsInv(s, steps[0]);
      LockedRowStays(s, steps[0], t, id);
      LockedRowsStay(Next(s, steps[0]), steps[1..], t, id);
    }
  }
}
