/** What a "healthy" verdict and an activation rest on, over whole runs.

    The service probes a provider outside any transaction and saves the verdict
    later; it asks CanActivate on a row it read and activates later, reading the
    clock a second time. Here those are separate steps, and every repository
    write between them is one atomic step of its own. */
module Evidence {
  import opened Prelude
  import opened Secrets
  import opened ConnectionModel
  import opened ConnectionTable
  import opened Repository
  import Rotation

  /** What a probe is pointed at. */
  datatype Target = Target(baseUrl: string, realm: string, clientId: string, secret: string)

  /** A probe in flight: its configuration was read first, its secret second. */
  datatype Probe = Probe(id: Id, baseUrl: string, realm: string, clientId: string,
                         secret: Option<string>, edits: nat)

  /** A CanActivate that said yes, and the row and the time it said it about. */
  datatype Check = Check(id: Id, row: Row, at: Time)

  /** What the row looked like at the moment it was activated. */
  datatype Grounds = Grounds(row: Row, checkedAt: Time, activatedAt: Time)

  datatype State = State(
    rows: Table,
    secret: map<Id, string>,     // the plaintext last put into each row
    edits: map<Id, nat>,         // edits so far that a probe depends on
    probed: map<Id, Target>,     // what the stored verdict was obtained from
    probes: map<nat, Probe>,
    checks: map<nat, Check>,
    grounds: map<Id, Grounds>)

  /** A replacement credential, and the keyring and nonce the service seals it with. */
  datatype NewSecret = NewSecret(plaintext: string, ring: Keyring, nonce: Nonce)

  datatype Step =
    | Create(c: Connection, secret: NewSecret)
    | EditConfig(id: Id, patch: ConfigPatch, replaced: Option<NewSecret>, now: Time)
    | StartProbe(k: nat, id: Id)
    | ReadSecret(k: nat, ring: Keyring)
    | Save(k: nat, report: VerifyReport)
    | Ask(k: nat, id: Id, now: Time)
    | Go(k: nat, now: Time)
    | RetireOne(id: Id, now: Time)
    | DeleteOne(id: Id)
    | Rotate(id: Id, ring: Keyring, nonce: Nonce)

  const Initial := State(map[], map[], map[], map[], map[], map[], map[])

  function SealedFor(id: Id, n: NewSecret): Sealed
    requires n.plaintext != ""
  {
    n.ring.Seal(n.plaintext, SecretAad(id), n.nonce).value
  }

  function NewSealed(id: Id, secret: Option<NewSecret>): Option<Sealed>
    requires secret.Some? ==> secret.value.plaintext != ""
  {
    match secret case None => None case Some(n) => Some(SealedFor(id, n))
  }

  /** What a process with this keyring reads out of the row. */
  function Opened(s: State, id: Id, ring: Keyring): Result<string, OpenError>
    requires id in s.rows
  {
    ring.Open(s.rows[id].Secret(), SecretAad(id))
  }

  function TargetOf(s: State, id: Id): Target
    requires id in s.rows && id in s.secret
  {
    Target(s.rows[id].baseUrl, s.rows[id].realm, s.rows[id].clientId, s.secret[id])
  }

  function ProbeTarget(p: Probe): Target
    requires p.secret.Some?
  {
    Target(p.baseUrl, p.realm, p.clientId, p.secret.value)
  }

  predicate Enabled(s: State, step: Step) {
    match step
    case Create(c, n) => c.id !in s.edits && c.status.Draft? && c.health.HealthUnknown? && n.plaintext != ""
    case EditConfig(id, _, n, _) =>
      id in s.rows && s.rows[id].status.Draft? && id in s.edits && (n.Some? ==> n.value.plaintext != "")
    case StartProbe(k, id) => k !in s.probes && id in s.rows && id in s.edits
    case ReadSecret(k, ring) => k in s.probes && s.probes[k].id in s.rows && Opened(s, s.probes[k].id, ring).Ok?
    case Save(k, _) => k in s.probes && s.probes[k].secret.Some? && s.probes[k].id in s.rows
    case Ask(k, id, now) => k !in s.checks && id in s.rows && ToDomain(id, s.rows[id]).CanActivate(now).None?
    case Go(k, _) =>
      && k in s.checks && s.checks[k].id in s.rows && s.rows[s.checks[k].id].status.Draft?
      && !SlotTakenElsewhere(s.rows, s.checks[k].id, s.checks[k].row.workspaceId)
    case RetireOne(id, _) => id in s.rows && !s.rows[id].status.Retired?
    case DeleteOne(id) => id in s.rows && !s.rows[id].status.Active?
    case Rotate(id, ring, _) => id in s.rows && Opened(s, id, ring).Ok? && Opened(s, id, ring).value != ""
  }

  function Next(s: State, step: Step): State
    requires Enabled(s, step)
  {
    match step
    case Create(c, n) =>
      s.(rows := s.rows[c.id := RowFrom(c, SealedFor(c.id, n))],
         secret := s.secret[c.id := n.plaintext], edits := s.edits[c.id := 0])
    case EditConfig(id, patch, secret, now) =>
      var sealed := NewSealed(id, secret);
      s.(rows := s.rows[id := Edit(s.rows[id], patch, sealed, now)],
         secret := match secret { case None => s.secret case Some(n) => s.secret[id := n.plaintext] },
         edits := if ChangesProbe(patch, sealed) then s.edits[id := s.edits[id] + 1] else s.edits)
    case StartProbe(k, id) =>
      var r := s.rows[id];
      s.(probes := s.probes[k := Probe(id, r.baseUrl, r.realm, r.clientId, None, s.edits[id])])
    case ReadSecret(k, ring) =>
      var p := s.probes[k];
      s.(probes := s.probes[k := p.(secret := Some(Opened(s, p.id, ring).value))])
    case Save(k, report) =>
      var p := s.probes[k];
      s.(rows := s.rows[p.id := Judge(s.rows[p.id], report)],
         probed := s.probed[p.id := ProbeTarget(p)], probes := s.probes - {k})
    case Ask(k, id, now) => s.(checks := s.checks[k := Check(id, s.rows[id], now)])
    case Go(k, now) =>
      var c := s.checks[k];
      s.(rows := AfterActivation(s.rows, c.id, c.row.workspaceId, now),
         grounds := s.grounds[c.id := Grounds(s.rows[c.id], c.at, now)], checks := s.checks - {k})
    case RetireOne(id, now) => s.(rows := s.rows[id := Retire(s.rows[id], now)])
    case DeleteOne(id) => s.(rows := s.rows - {id})
    case Rotate(id, ring, nonce) =>
      var again := SealedFor(id, NewSecret(Opened(s, id, ring).value, ring, nonce));
      s.(rows := s.rows[id := s.rows[id].WithSecret(again)])
  }

  ghost predicate IsRun(states: seq<State>, steps: seq<Step>) {
    && |states| == |steps| + 1
    && states[0] == Initial
    && forall i :: 0 <= i < |steps| ==> Enabled(states[i], steps[i]) && states[i + 1] == Next(states[i], steps[i])
  }

  // ---------------------------------------------------------------------
  // The steps and the store
  // ---------------------------------------------------------------------

  /** And when each can be taken: a service's guard lets it, and for a rotation the row
      opens; what is under way elsewhere is no obstacle. */
  lemma StepsAreOpen(s: State, k: nat, id: Id, now: Time, patch: ConfigPatch, ring: Keyring, nonce: Nonce)
    requires Consistent(s) && id in s.rows
    ensures Enabled(s, EditConfig(id, patch, None, now)) <==> ToDomain(id, s.rows[id]).CanUpdate().None?
    ensures Enabled(s, RetireOne(id, now)) <==> ToDomain(id, s.rows[id]).CanRetire().None?
    ensures Enabled(s, DeleteOne(id)) <==> ToDomain(id, s.rows[id]).CanDelete().None?
    ensures k !in s.checks ==> (Enabled(s, Ask(k, id, now)) <==> ToDomain(id, s.rows[id]).CanActivate(now).None?)
    ensures k !in s.probes ==> Enabled(s, StartProbe(k, id))
    ensures Enabled(s, Rotate(id, ring, nonce)) <==> Rotation.Openable(ring, id, s.rows[id])
  {
    hide Carries, StillPointed, RawKeyring.Open;
    assert id in s.edits;
  }

  /** A probe goes on as long as its row is there, whatever becomes of it, and its verdict
      is saved even then; a checked activation goes through as long as its row is still a
      draft and no other workspace's slot is in the way. */
  lemma StepsGoOn(s: State, k: nat, ring: Keyring, report: VerifyReport, now: Time)
    ensures k in s.probes && s.probes[k].id in s.rows ==>
              && (Enabled(s, ReadSecret(k, ring)) <==> Opened(s, s.probes[k].id, ring).Ok?)
              && (Enabled(s, Save(k, report)) <==> s.probes[k].secret.Some?)
    ensures k in s.checks && s.checks[k].id in s.rows ==>
              (Enabled(s, Go(k, now)) <==>
                 && s.rows[s.checks[k].id].status.Draft?
                 && !SlotTakenElsewhere(s.rows, s.checks[k].id, s.checks[k].row.workspaceId))
  {
    hide SlotTakenElsewhere, Opened;
  }

  /** Every step does to the table what the statements it stands for do, or nothing. */
  lemma StepsAreStatements(s: State, step: Step)
    requires Enabled(s, step)
    ensures var t, t' := s.rows, Next(s, step).rows;
            && (step.Create? ==>
                  step.c.id !in s.edits && t' == t[step.c.id := RowFrom(step.c, SealedFor(step.c.id, step.secret))])
            && (step.EditConfig? ==>
                  var st := EditDraft(step.id, step.patch, NewSealed(step.id, step.replaced), step.now);
                  t' == UpdateSeen(t, st, t.Keys) && Affected(t, st, t.Keys) == {step.id})
            && (step.Save? ==>
                  var st := RecordVerdict(s.probes[step.k].id, step.report);
                  t' == UpdateSeen(t, st, t.Keys) && Affected(t, st, t.Keys) == {st.id})
            && (step.RetireOne? ==>
                  var st := RetireRow(step.id, step.now);
                  t' == UpdateSeen(t, st, t.Keys) && Affected(t, st, t.Keys) == {step.id})
            && (step.DeleteOne? ==> step.id in t && !t[step.id].status.Active? && t' == t - {step.id})
            && (step.StartProbe? || step.ReadSecret? || step.Ask? ==> t' == t)
  {
    hide SlotTakenElsewhere, Connection.CanActivate, SealedFor, Opened, AfterActivation, Edit, Judge, Retire, RowFrom;
  }

  lemma GoIsTwoStatements(s: State, step: Step)
    requires Enabled(s, step) && step.Go?
    ensures var id, w := s.checks[step.k].id, s.checks[step.k].row.workspaceId;
            var middle := UpdateSeen(s.rows, RetireIncumbents(w, id, step.now), s.rows.Keys);
            Next(s, step).rows == UpdateSeen(middle, PromoteDraft(id, step.now), middle.Keys)
  {
    hide SlotTakenElsewhere, Connection.CanActivate, SealedFor, Opened, Retire, Promote;
  }

  lemma RotateIsARotation(s: State, step: Step)
    requires Enabled(s, step) && step.Rotate? && SchemaHolds(s.rows)
    requires s.rows[step.id].secretKeyVersion != step.ring.current
    ensures Next(s, step).rows == Rotation.RotateOne(s.rows, step.id, step.ring, step.nonce, Rotation.NoFault).0
    ensures Rotation.Rewrapped(step.ring, step.id, s.rows[step.id], Next(s, step).rows[step.id])
  {
    RotateWrites(s, step);
    hide Next, Enabled, RawKeyring.Open, RawKeyring.Seal, SchemaHolds, Row.WithSecret, Row.Secret, Rotation.Rewrapped,
         Rotation.RotateOne;
    Rotation.RotatedRow(s.rows, step.id, step.ring, step.nonce);
  }

  lemma RotateWrites(s: State, step: Step)
    requires Enabled(s, step) && step.Rotate?
    ensures step.id in s.rows && Opened(s, step.id, step.ring).Ok? && Opened(s, step.id, step.ring).value != ""
    ensures var sealed := SealedFor(step.id, NewSecret(Opened(s, step.id, step.ring).value, step.ring, step.nonce));
            Next(s, step).rows == s.rows[step.id := s.rows[step.id].WithSecret(sealed)]
  {
    hide Opened, SealedFor, Row.WithSecret;
  }

  // ---------------------------------------------------------------------
  // Verdicts
  // ---------------------------------------------------------------------

  /** No edit the probe depends on fell between its start and now. */
  predicate Quiet(s: State, step: Step) {
    step.Save? && step.k in s.probes && s.probes[step.k].id in s.edits ==>
      s.edits[s.probes[step.k].id] == s.probes[step.k].edits
  }

  /** Some keyring opens the stored value to the plaintext last put into the row; any
      other then opens it to that or not at all. */
  ghost predicate Carries(s: State, id: Id)
    requires id in s.rows && id in s.secret
  {
    exists ring: Keyring :: Opened(s, id, ring) == Ok(s.secret[id])
  }

  ghost predicate Consistent(s: State) {
    && s.rows.Keys <= s.edits.Keys && s.rows.Keys <= s.secret.Keys
    && (forall id :: id in s.rows ==> Carries(s, id))
    && (forall k :: k in s.probes ==>
          && s.probes[k].id in s.edits && s.probes[k].edits <= s.edits[s.probes[k].id]
          && (s.probes[k].id in s.rows && s.probes[k].edits == s.edits[s.probes[k].id] ==>
                StillPointed(s, s.probes[k])))
  }

  /** The probe's readings are the row's present values. */
  ghost predicate StillPointed(s: State, p: Probe)
    requires p.id in s.rows && p.id in s.secret
  {
    var t := TargetOf(s, p.id);
    && p.baseUrl == t.baseUrl && p.realm == t.realm && p.clientId == t.clientId
    && (p.secret.Some? ==> p.secret.value == t.secret)
  }

  /** The stored verdict was obtained from the row's present target. */
  ghost predicate Fresh(s: State, id: Id) {
    id in s.rows && id in s.secret && id in s.probed && s.probed[id] == TargetOf(s, id)
  }

  lemma OpenedIsTheSecret(s: State, id: Id, ring: Keyring)
    requires id in s.rows && id in s.secret && Carries(s, id)
    ensures Opened(s, id, ring).Ok? ==> Opened(s, id, ring).value == s.secret[id]
  {
    var other: Keyring :| Opened(s, id, other) == Ok(s.secret[id]);
    if Opened(s, id, ring).Ok? { OpenAgrees(ring, other, s.rows[id].Secret(), SecretAad(id)); }
  }

  /** Which steps write a row's secret columns, and what they put there. */
  lemma SecretWrites(s: State, step: Step, id: Id)
    requires Enabled(s, step) && id in Next(s, step).rows
    ensures var s' := Next(s, step);
            if step.Create? && id == step.c.id then s'.rows[id].Secret() == SealedFor(id, step.secret)
            else
              && id in s.rows
              && if step.EditConfig? && id == step.id && step.replaced.Some?
                 then s'.rows[id].Secret() == SealedFor(id, step.replaced.value)
                 else if step.Rotate? && id == step.id
                 then s'.rows[id].Secret() ==
                        SealedFor(id, NewSecret(Opened(s, id, step.ring).value, step.ring, step.nonce))
                 else s'.rows[id].Secret() == s.rows[id].Secret()
  {
    hide SlotTakenElsewhere, Connection.CanActivate, SealedFor, Opened;
  }

  lemma PlaintextWrites(s: State, step: Step, id: Id)
    requires Enabled(s, step) && id in s.secret
    ensures var s' := Next(s, step);
            && id in s'.secret
            && s'.secret[id] ==
               if step.Create? && id == step.c.id then step.secret.plaintext
               else if step.EditConfig? && id == step.id && step.replaced.Some? then step.replaced.value.plaintext
               else s.secret[id]
  {
    hide SlotTakenElsewhere, Connection.CanActivate, Edit, Judge, AfterActivation, Retire, SealedFor, Opened;
  }

  lemma SealedOpens(id: Id, n: NewSecret)
    requires n.plaintext != ""
    ensures n.ring.Open(SealedFor(id, n), SecretAad(id)) == Ok(n.plaintext)
  {
  }

  /** Every step leaves every stored value opening to the row's plaintext. */
  lemma StepKeepsCarried(s: State, step: Step, id: Id)
    requires Consistent(s) && Enabled(s, step) && id in Next(s, step).rows
    ensures id in Next(s, step).secret && Carries(Next(s, step), id)
  {
    var s' := Next(s, step);
    SecretWrites(s, step, id);
    KeysStayCounted(s, step);
    if step.Create? && id == step.c.id {
      CreatedSecret(s, step);
      SealedOpens(id, step.secret);
      hide Next, Enabled, SealedFor;
      assert Opened(s', id, step.secret.ring) == Ok(s'.secret[id]);
    } else {
      assert Carries(s, id);
      PlaintextWrites(s, step, id);
      hide Next, Enabled, SealedFor;
      if step.EditConfig? && id == step.id && step.replaced.Some? {
        EditedSecret(s, step);
        SealedOpens(id, step.replaced.value);
        assert Opened(s', id, step.replaced.value.ring) == Ok(s'.secret[id]);
      } else if step.Rotate? && id == step.id {
        RotatedSecret(s, step);
        OpenedIsTheSecret(s, id, step.ring);
        SealedOpens(id, NewSecret(s.secret[id], step.ring, step.nonce));
        assert Opened(s', id, step.ring) == Ok(s'.secret[id]);
      } else {
        var ring: Keyring :| Opened(s, id, ring) == Ok(s.secret[id]);
        assert Opened(s', id, ring) == Ok(s'.secret[id]);
      }
    }
  }

  lemma CreatedSecret(s: State, step: Step)
    requires Enabled(s, step) && step.Create?
    ensures step.secret.plaintext != ""
    ensures step.c.id in Next(s, step).secret && Next(s, step).secret[step.c.id] == step.secret.plaintext
  {
  }

  lemma EditedSecret(s: State, step: Step)
    requires Enabled(s, step) && step.EditConfig? && step.replaced.Some?
    ensures step.replaced.value.plaintext != ""
  {
  }

  lemma RotatedSecret(s: State, step: Step)
    requires Enabled(s, step) && step.Rotate?
    ensures step.id in s.rows && Opened(s, step.id, step.ring).Ok? && Opened(s, step.id, step.ring).value != ""
  {
  }

  /** Only an edit the probe depends on moves a row's target, and it is counted. */
  lemma TargetMovesOnlyByEdit(s: State, step: Step, id: Id)
    requires Consistent(s) && Enabled(s, step) && id in s.edits
    ensures var s' := Next(s, step);
            && id in s'.edits && s.edits[id] <= s'.edits[id]
            && (id in s'.rows ==> id in s.rows && id in s'.secret)
            && (id in s'.rows && s'.edits[id] == s.edits[id] ==> TargetOf(s', id) == TargetOf(s, id))
  {
    hide SlotTakenElsewhere, Connection.CanActivate, SealedFor, Opened, Carries;
    assert id in s.rows ==> id in s.secret;
  }

  lemma KeysStayCounted(s: State, step: Step)
    requires Consistent(s) && Enabled(s, step)
    ensures var s' := Next(s, step);
            s'.rows.Keys <= s'.edits.Keys && s'.rows.Keys <= s'.secret.Keys
  {
    hide SlotTakenElsewhere, Connection.CanActivate, Edit, Judge, Retire, Promote, SealedFor, Opened, Carries;
  }

  /** A probe's readings are taken from the row and then kept. */
  lemma ProbeStaysPointed(s: State, step: Step, k: nat)
    requires Consistent(s) && Enabled(s, step) && k in Next(s, step).probes
    ensures var s' := Next(s, step);
            var p := s'.probes[k];
            && p.id in s.edits && p.edits <= s.edits[p.id]
            && (p.id in s.rows && p.edits == s.edits[p.id] ==> StillPointed(s, p))
  {
    hide SlotTakenElsewhere, Connection.CanActivate, Edit, Judge, AfterActivation, Retire, SealedFor, Opened, Carries;
    assert step.StartProbe? ==> step.id in s.edits;
    if step.ReadSecret? {
      assert Carries(s, s.probes[step.k].id);
      OpenedIsTheSecret(s, s.probes[step.k].id, step.ring);
    }
  }

  lemma StepKeepsConsistent(s: State, step: Step)
    requires Consistent(s) && Enabled(s, step)
    ensures Consistent(Next(s, step))
  {
    hide Next, Enabled, Carries;
    KeysStayCounted(s, step);
    var s' := Next(s, step);
    forall id | id in s'.rows ensures Carries(s', id) { StepKeepsCarried(s, step, id); }
    forall k | k in s'.probes
      ensures s'.probes[k].id in s'.edits && s'.probes[k].edits <= s'.edits[s'.probes[k].id]
      ensures s'.probes[k].id in s'.rows && s'.probes[k].edits == s'.edits[s'.probes[k].id] ==>
                StillPointed(s', s'.probes[k])
    {
      ProbeStaysPointed(s, step, k);
      TargetMovesOnlyByEdit(s, step, s'.probes[k].id);
    }
  }

  /** A verdict saved with no edit in between is about what the row now holds;
      saved late, it is fresh only if the edits happened to change nothing. */
  lemma SaveIsFresh(s: State, step: Step)
    requires Consistent(s) && step.Save? && Enabled(s, step)
    ensures var p := s.probes[step.k];
            && (Fresh(Next(s, step), p.id) <==> ProbeTarget(p) == TargetOf(s, p.id))
            && (Quiet(s, step) ==> Fresh(Next(s, step), p.id))
  {
    hide Carries, Opened, SealedFor, SlotTakenElsewhere;
    var p := s.probes[step.k];
    assert p.id in s.edits;
  }

  ghost predicate VerdictsFresh(s: State) {
    forall id :: id in s.rows && !s.rows[id].health.HealthUnknown? ==> Fresh(s, id)
  }

  /** A verdict that is not being saved was there before, and no edit it depends on
      is being made. */
  lemma VerdictsAreOld(s: State, step: Step, id: Id)
    requires Enabled(s, step) && id in Next(s, step).rows && !Next(s, step).rows[id].health.HealthUnknown?
    requires !(step.Save? && id == s.probes[step.k].id)
    ensures var s' := Next(s, step);
            && id in s.rows && !s.rows[id].health.HealthUnknown?
            && (id in s.edits ==> id in s'.edits && s'.edits[id] == s.edits[id])
            && (id in s.probed ==> id in s'.probed && s'.probed[id] == s.probed[id])
  {
    hide SlotTakenElsewhere, Connection.CanActivate, SealedFor, Opened;
  }

  /** A verdict is saved about what its row still points at: the condition a guard in
      the saving statement could check. */
  predicate OnTarget(s: State, step: Step) {
    step.Save? && step.k in s.probes && s.probes[step.k].secret.Some?
    && s.probes[step.k].id in s.rows && s.probes[step.k].id in s.secret ==>
      ProbeTarget(s.probes[step.k]) == TargetOf(s, s.probes[step.k].id)
  }

  lemma SaveIsEnabled(s: State, step: Step)
    requires Consistent(s) && Enabled(s, step) && step.Save?
    ensures step.k in s.probes && s.probes[step.k].secret.Some?
    ensures var id := s.probes[step.k].id;
            && id in s.rows && id in s.secret
            && id in Next(s, step).rows && !Next(s, step).rows[id].health.HealthUnknown?
  {
  }

  lemma StepKeepsFreshIff(s: State, step: Step)
    requires Consistent(s) && VerdictsFresh(s) && Enabled(s, step)
    ensures VerdictsFresh(Next(s, step)) <==> OnTarget(s, step)
  {
    if step.Save? {
      SaveIsEnabled(s, step);
      SaveIsFresh(s, step);
    }
    hide Next, Enabled, Carries, TargetOf, ProbeTarget, StillPointed;
    var s' := Next(s, step);
    if OnTarget(s, step) {
      forall id | id in s'.rows && !s'.rows[id].health.HealthUnknown? ensures Fresh(s', id) {
        if !(step.Save? && id == s.probes[step.k].id) {
          VerdictsAreOld(s, step, id);
          assert Fresh(s, id) && id in s.edits;
          TargetMovesOnlyByEdit(s, step, id);
        }
      }
    }
  }

  lemma {:induction false} ConsistentThroughout(states: seq<State>, steps: seq<Step>, i: nat)
    requires IsRun(states, steps) && i < |states|
    ensures Consistent(states[i])
  {
    hide Consistent, Next, Enabled;
    if i > 0 {
      ConsistentThroughout(states, steps, i - 1);
      StepKeepsConsistent(states[i - 1], steps[i - 1]);
    } else {
      NothingIsConsistent();
    }
  }

  lemma NothingIsConsistent()
    ensures Consistent(Initial)
  {
  }

  /** Over whole runs: in every state every verdict was obtained from its row's present
      coordinates and secret, if and only if every verdict so far was saved about what
      its row still pointed at. */
  lemma {:induction false} VerdictsFreshIff(states: seq<State>, steps: seq<Step>, i: nat)
    requires IsRun(states, steps) && i < |states|
    ensures (forall j :: 0 <= j <= i ==> VerdictsFresh(states[j]))
            <==> forall j :: 0 <= j < i ==> OnTarget(states[j], steps[j])
  {
    hide VerdictsFresh, OnTarget, Consistent, Next, Enabled;
    if i > 0 {
      VerdictsFreshIff(states, steps, i - 1);
      assert states[i] == Next(states[i - 1], steps[i - 1]) && Enabled(states[i - 1], steps[i - 1]);
      if forall j :: 0 <= j <= i - 1 ==> VerdictsFresh(states[j]) {
        ConsistentThroughout(states, steps, i - 1);
        StepKeepsFreshIff(states[i - 1], steps[i - 1]);
      }
    } else {
      NoVerdictsYet();
    }
  }

  lemma NoVerdictsYet()
    ensures VerdictsFresh(Initial)
  {
  }

  lemma QuietIsOnTarget(s: State, step: Step)
    requires Consistent(s) && Enabled(s, step) && Quiet(s, step)
    ensures OnTarget(s, step)
  {
    if step.Save? {
      SaveIsEnabled(s, step);
      SaveIsFresh(s, step);
    }
  }

  lemma QuietRunsAreFresh(states: seq<State>, steps: seq<Step>, i: nat)
    requires IsRun(states, steps) && i < |states|
    requires forall j :: 0 <= j < i ==> Quiet(states[j], steps[j])
    ensures VerdictsFresh(states[i])
  {
    hide VerdictsFresh, OnTarget, Quiet, Consistent, Next, Enabled;
    forall j | 0 <= j < i ensures OnTarget(states[j], steps[j]) {
      ConsistentThroughout(states, steps, j);
      QuietIsOnTarget(states[j], steps[j]);
    }
    VerdictsFreshIff(states, steps, i);
  }

  /** In every run whose verdicts are all saved quietly, every verdict in every state
      was obtained with the row's present coordinates and with the very credential the
      row now opens to, under whatever keyring opens it. */
  lemma HealthyMeansProbed(states: seq<State>, steps: seq<Step>, i: nat, id: Id, ring: Keyring)
    requires IsRun(states, steps) && i < |states|
    requires forall j :: 0 <= j < i ==> Quiet(states[j], steps[j])
    requires id in states[i].rows && !states[i].rows[id].health.HealthUnknown?
    ensures var s := states[i];
            && id in s.probed
            && s.probed[id].baseUrl == s.rows[id].baseUrl && s.probed[id].realm == s.rows[id].realm
            && s.probed[id].clientId == s.rows[id].clientId
            && (Opened(s, id, ring).Ok? ==> s.probed[id].secret == Opened(s, id, ring).value)
            && exists other: Keyring :: Opened(s, id, other) == Ok(s.probed[id].secret)
  {
    hide Next, Enabled, Opened, Quiet, StillPointed;
    var s := states[i];
    ConsistentThroughout(states, steps, i);
    QuietRunsAreFresh(states, steps, i);
    assert Fresh(s, id) && Carries(s, id);
    OpenedIsTheSecret(s, id, ring);
  }

  /** A probe overtaken by an edit: its verdict lands on coordinates nothing
      ever probed, and the row says healthy. */
  lemma OvertakenVerdictIsStale(s: State, id: Id, baseUrl: string, now: Time, report: VerifyReport, k: nat)
    requires Consistent(s) && id in s.rows && s.rows[id].status.Draft?
    requires k in s.probes && s.probes[k].id == id && s.probes[k].secret.Some?
    requires s.probes[k].baseUrl != baseUrl && report.ok
    ensures var edit := EditConfig(id, ConfigPatch(None, Some(baseUrl), None, None), None, now);
            && Enabled(s, edit)
            && Enabled(Next(s, edit), Save(k, report))
            && !Quiet(Next(s, edit), Save(k, report))
            && var s' := Next(Next(s, edit), Save(k, report));
               s'.rows[id].health.Healthy? && !Fresh(s', id)
  {
    var edit := EditConfig(id, ConfigPatch(None, Some(baseUrl), None, None), None, now);
    assert s.probes[k].edits <= s.edits[id];
    var mid := Next(s, edit);
    assert mid.edits[id] == s.edits[id] + 1;
  }

  // ---------------------------------------------------------------------
  // Activations
  // ---------------------------------------------------------------------

  /** The activation acts on the row CanActivate was asked about. */
  predicate Steady(s: State, step: Step) {
    step.Go? && step.k in s.checks && s.checks[step.k].id in s.rows ==>
      s.rows[s.checks[step.k].id] == s.checks[step.k].row
  }

  ghost predicate GoodGrounds(g: Grounds) {
    && g.row.health.Healthy? && g.row.lastVerifiedAt.Some?
    && g.activatedAt - g.row.lastVerifiedAt.value <= VERIFY_VALIDITY + (g.activatedAt - g.checkedAt)
  }

  ghost predicate ChecksHeld(s: State) {
    forall k :: k in s.checks ==> ToDomain(s.checks[k].id, s.checks[k].row).CanActivate(s.checks[k].at).None?
  }

  ghost predicate ActiveGrounded(s: State) {
    && (forall id :: id in s.grounds ==> id in s.edits)
    && (forall id :: id in s.rows && s.rows[id].status.Active? ==>
          id in s.grounds && s.rows[id].activatedAt == Some(s.grounds[id].activatedAt) && GoodGrounds(s.grounds[id]))
  }

  lemma ChecksStayHeld(s: State, step: Step)
    requires ChecksHeld(s) && Enabled(s, step)
    ensures ChecksHeld(Next(s, step))
  {
    hide SlotTakenElsewhere, Connection.CanActivate, ToDomain, Edit, Judge, AfterActivation, Retire;
  }

  /** The one step that brings a row into service records its grounds. */
  lemma OnlyGoActivates(s: State, step: Step, id: Id)
    requires Consistent(s) && Enabled(s, step)
    requires id in Next(s, step).rows && Next(s, step).rows[id].status.Active?
    ensures var s' := Next(s, step);
            if step.Go? && id == s.checks[step.k].id then
              && s'.rows[id].activatedAt == Some(step.now)
              && id in s'.grounds && s'.grounds[id] == Grounds(s.rows[id], s.checks[step.k].at, step.now)
            else
              && id in s.rows && s.rows[id].status.Active?
              && s'.rows[id].activatedAt == s.rows[id].activatedAt
              && (id in s.grounds ==> id in s'.grounds && s'.grounds[id] == s.grounds[id])
  {
    hide SlotTakenElsewhere, Connection.CanActivate, Consistent;
  }

  lemma GroundsStayCounted(s: State, step: Step)
    requires Consistent(s) && Enabled(s, step) && s.grounds.Keys <= s.edits.Keys
    ensures Next(s, step).grounds.Keys <= Next(s, step).edits.Keys
  {
    hide SlotTakenElsewhere, Connection.CanActivate, Edit, Judge, AfterActivation, Retire, StillPointed;
  }

  lemma StepKeepsGrounded(s: State, step: Step)
    requires Consistent(s) && ChecksHeld(s) && ActiveGrounded(s) && Enabled(s, step) && Steady(s, step)
    ensures ChecksHeld(Next(s, step)) && ActiveGrounded(Next(s, step))
  {
    hide Next, Consistent;
    ChecksStayHeld(s, step);
    GroundsStayCounted(s, step);
    var s' := Next(s, step);
    forall id | id in s'.rows && s'.rows[id].status.Active?
      ensures id in s'.grounds && s'.rows[id].activatedAt == Some(s'.grounds[id].activatedAt)
      ensures GoodGrounds(s'.grounds[id])
    {
      OnlyGoActivates(s, step, id);
      if step.Go? && id == s.checks[step.k].id {
        GuardsFollowTheLifecycle(ToDomain(id, s.checks[step.k].row), s.checks[step.k].at);
      }
    }
  }

  /** In every run whose activations all act on the row they were checked on,
      every active row was healthy when it was activated, and its probe was older
      than the validity window by no more than the time between the check's clock
      reading and the activation's. */
  lemma {:induction false} ActiveMeansVerified(states: seq<State>, steps: seq<Step>, i: nat)
    requires IsRun(states, steps) && i < |states|
    requires forall j :: 0 <= j < i ==> Steady(states[j], steps[j])
    ensures Consistent(states[i]) && ChecksHeld(states[i]) && ActiveGrounded(states[i])
  {
    if i > 0 {
      ActiveMeansVerified(states, steps, i - 1);
      StepKeepsConsistent(states[i - 1], steps[i - 1]);
      StepKeepsGrounded(states[i - 1], steps[i - 1]);
    }
  }

  /** Healthy, and probed no longer than the validity window before `now`. */
  predicate VerifiedAt(r: Row, now: Time) {
    r.health.Healthy? && r.lastVerifiedAt.Some? && now - r.lastVerifiedAt.value <= VERIFY_VALIDITY
  }

  /** For every activation, whatever happened since its check: the row it puts into
      service is verified at that moment if and only if asking CanActivate again, on
      the row as it now is and with the activation's own clock reading, says yes. */
  lemma WithinTheHourIff(s: State, step: Step)
    requires step.Go? && Enabled(s, step)
    ensures var id := s.checks[step.k].id;
            var s' := Next(s, step);
            && id in s'.rows && s'.rows[id].status.Active? && s'.rows[id].activatedAt == Some(step.now)
            && id in s'.grounds && s'.grounds[id] == Grounds(s.rows[id], s.checks[step.k].at, step.now)
            && (VerifiedAt(s'.rows[id], step.now) <==> VerifiedAt(s.rows[id], step.now))
            && (VerifiedAt(s.rows[id], step.now) <==> ToDomain(id, s.rows[id]).CanActivate(step.now).None?)
  {
    var c := s.checks[step.k];
    GuardsFollowTheLifecycle(ToDomain(c.id, s.rows[c.id]), step.now);
  }

  /** The activation's row would pass CanActivate at the activation's own clock reading. */
  predicate Guarded(s: State, step: Step) {
    step.Go? && step.k in s.checks && s.checks[step.k].id in s.rows ==>
      ToDomain(s.checks[step.k].id, s.rows[s.checks[step.k].id]).CanActivate(step.now).None?
  }

  /** Every active row was verified when it was activated. */
  ghost predicate ActiveVerified(s: State) {
    forall id :: id in s.rows && s.rows[id].status.Active? ==>
      && id in s.grounds && s.rows[id].activatedAt == Some(s.grounds[id].activatedAt)
      && VerifiedAt(s.grounds[id].row, s.grounds[id].activatedAt)
  }

  lemma GoIsEnabled(s: State, step: Step)
    requires Enabled(s, step) && step.Go?
    ensures step.k in s.checks && s.checks[step.k].id in s.rows
  {
  }

  lemma StepKeepsVerifiedIff(s: State, step: Step)
    requires Consistent(s) && ActiveVerified(s) && Enabled(s, step)
    ensures ActiveVerified(Next(s, step)) <==> Guarded(s, step)
  {
    hide Next, Enabled, Consistent, VerifiedAt, Connection.CanActivate, ToDomain;
    if step.Go? {
      GoIsEnabled(s, step);
      WithinTheHourIff(s, step);
    }
    var s' := Next(s, step);
    if Guarded(s, step) {
      forall id | id in s'.rows && s'.rows[id].status.Active?
        ensures id in s'.grounds && s'.rows[id].activatedAt == Some(s'.grounds[id].activatedAt)
        ensures VerifiedAt(s'.grounds[id].row, s'.grounds[id].activatedAt)
      {
        OnlyGoActivates(s, step, id);
      }
    }
  }

  /** Over whole runs: in every state every active row was healthy and probed within the
      hour when it was activated, if and only if every activation so far acted on a row
      that CanActivate would still have accepted. */
  lemma {:induction false} ActiveWithinTheHourIff(states: seq<State>, steps: seq<Step>, i: nat)
    requires IsRun(states, steps) && i < |states|
    ensures (forall j :: 0 <= j <= i ==> ActiveVerified(states[j]))
            <==> forall j :: 0 <= j < i ==> Guarded(states[j], steps[j])
  {
    hide ActiveVerified, Guarded, Consistent, Next, Enabled;
    if i > 0 {
      ActiveWithinTheHourIff(states, steps, i - 1);
      assert states[i] == Next(states[i - 1], steps[i - 1]) && Enabled(states[i - 1], steps[i - 1]);
      if forall j :: 0 <= j <= i - 1 ==> ActiveVerified(states[j]) {
        ConsistentThroughout(states, steps, i - 1);
        StepKeepsVerifiedIff(states[i - 1], steps[i - 1]);
      }
    } else {
      NothingIsActive();
    }
  }

  lemma NothingIsActive()
    ensures ActiveVerified(Initial)
  {
  }

  /** The two readings can straddle the limit: a check on the last nanosecond and
      an activation one later put a connection into service past its hour. */
  lemma ClockReadTwiceOverruns(s: State, k: nat, id: Id)
    requires Consistent(s) && id in s.rows && s.rows[id].status.Draft? && k !in s.checks
    requires s.rows[id].health.Healthy? && s.rows[id].lastVerifiedAt.Some?
    requires !SlotTakenElsewhere(s.rows, id, s.rows[id].workspaceId)
    ensures var last := s.rows[id].lastVerifiedAt.value + VERIFY_VALIDITY;
            && Enabled(s, Ask(k, id, last))
            && Enabled(Next(s, Ask(k, id, last)), Go(k, last + 1))
            && Steady(Next(s, Ask(k, id, last)), Go(k, last + 1))
            && var s' := Next(Next(s, Ask(k, id, last)), Go(k, last + 1));
               && s'.rows[id].status.Active?
               && s'.rows[id].activatedAt.value - s'.rows[id].lastVerifiedAt.value > VERIFY_VALIDITY
  {
  }

  /** Activation does not look at health again: an edit after the check leaves an
      active connection no probe has ever seen. */
  lemma OvertakenCheckActivatesUnverified(s: State, k: nat, id: Id, realm: string, now: Time)
    requires Consistent(s) && k in s.checks && s.checks[k].id == id
    requires id in s.rows && s.rows[id].status.Draft?
    requires s.checks[k].row.workspaceId == s.rows[id].workspaceId
    requires !SlotTakenElsewhere(s.rows, id, s.rows[id].workspaceId)
    ensures var edit := EditConfig(id, ConfigPatch(None, None, Some(realm), None), None, now);
            && Enabled(s, edit) && Enabled(Next(s, edit), Go(k, now))
            && var s' := Next(Next(s, edit), Go(k, now));
               s'.rows[id].status.Active? && s'.rows[id].health.HealthUnknown?
  {
    var edit := EditConfig(id, ConfigPatch(None, None, Some(realm), None), None, now);
    var mid := Next(s, edit);
    assert mid.rows[id].workspaceId == s.rows[id].workspaceId;
  }
}
