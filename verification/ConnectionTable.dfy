/** The statements the repository and the rotator send to the connections table.

    A statement is a WHERE clause and an assignment. The database applies it to
    every matching row, or refuses it as a whole when the result would break a
    CHECK constraint or the partial unique index. */
module ConnectionTable {
  import opened Prelude
  import opened Secrets
  import opened ConnectionModel

  type Table = map<Id, Row>

  datatype ConfigPatch = ConfigPatch(
    name: Option<string>, baseUrl: Option<string>, realm: Option<string>, clientId: Option<string>)

  datatype VerifyReport = VerifyReport(ok: bool, summary: string, accessMode: AccessMode, checkedAt: Time)

  datatype Statement =
    | RetireIncumbents(workspaceId: Id, exceptId: Id, now: Time)
    | PromoteDraft(id: Id, now: Time)
    | RetireRow(id: Id, now: Time)
    | EditDraft(id: Id, patch: ConfigPatch, sealed: Option<Sealed>, now: Time)
    | RecordVerdict(id: Id, report: VerifyReport)
    | ReSeal(id: Id, guardVersion: int, wrapped: Sealed)

  predicate Matches(s: Statement, id: Id, r: Row) {
    match s
    case RetireIncumbents(w, x, _) => r.workspaceId == w && r.status.Active? && id != x
    case PromoteDraft(i, _) => id == i && r.status.Draft?
    case RetireRow(i, _) => id == i && !r.status.Retired?
    case EditDraft(i, _, _, _) => id == i && r.status.Draft?
    case RecordVerdict(i, _) => id == i
    case ReSeal(i, v, _) => id == i && r.secretKeyVersion == v
  }

  function Retire(r: Row, now: Time): Row {
    r.(status := Retired, retiredAt := Some(now), updatedAt := now)
  }

  function Promote(r: Row, now: Time): Row {
    r.(status := Active, activatedAt := Some(now), updatedAt := now)
  }

  function OrElse<T>(o: Option<T>, default: T): T {
    match o case None => default case Some(v) => v
  }

  /** Whether an edit touches anything the last probe depended on. */
  predicate ChangesProbe(p: ConfigPatch, sealed: Option<Sealed>) {
    p.baseUrl.Some? || p.realm.Some? || p.clientId.Some? || sealed.Some?
  }

  function Edit(r: Row, p: ConfigPatch, sealed: Option<Sealed>, now: Time): Row {
    var named := r.(name := OrElse(p.name, r.name), baseUrl := OrElse(p.baseUrl, r.baseUrl),
                    realm := OrElse(p.realm, r.realm), clientId := OrElse(p.clientId, r.clientId),
                    updatedAt := now);
    var stored := match sealed case None => named case Some(s) => named.WithSecret(s);
    if ChangesProbe(p, sealed) then
      stored.(health := HealthUnknown, healthMessage := None,
              accessMode := AccessUnknown, lastVerifiedAt := None)
    else stored
  }

  function Judge(r: Row, report: VerifyReport): Row {
    r.(health := if report.ok then Healthy else Unhealthy, healthMessage := Some(report.summary),
       accessMode := report.accessMode, lastVerifiedAt := Some(report.checkedAt),
       updatedAt := report.checkedAt)
  }

  function Assign(s: Statement, r: Row): Row {
    match s
    case RetireIncumbents(_, _, now) => Retire(r, now)
    case PromoteDraft(_, now) => Promote(r, now)
    case RetireRow(_, now) => Retire(r, now)
    case EditDraft(_, p, sealed, now) => Edit(r, p, sealed, now)
    case RecordVerdict(_, report) => Judge(r, report)
    case ReSeal(_, _, sealed) => r.WithSecret(sealed)
  }

  /** Which rows a statement is about: one by its id, in a state that allows it, or the
      workspace's active ones but for the successor. */
  lemma StatementsFindTheirRows(s: Statement, id: Id, r: Row)
    ensures s.RetireIncumbents? ==> (Matches(s, id, r) <==> ActiveIn(r, s.workspaceId) && id != s.exceptId)
    ensures s.PromoteDraft? || s.EditDraft? ==> (Matches(s, id, r) <==> id == s.id && r.status.Draft?)
    ensures s.RetireRow? ==> (Matches(s, id, r) <==> id == s.id && !r.status.Retired?)
    ensures s.RecordVerdict? ==> (Matches(s, id, r) <==> id == s.id)
    ensures s.ReSeal? ==> (Matches(s, id, r) <==> id == s.id && r.Secret().keyVersion == s.guardVersion)
  {
  }

  /** The table after s, restricted to the rows the statement's snapshot saw. */
  function UpdateSeen(t: Table, s: Statement, seen: set<Id>): Table {
    map id | id in t :: if id in seen && Matches(s, id, t[id]) then Assign(s, t[id]) else t[id]
  }

  function Affected(t: Table, s: Statement, seen: set<Id>): set<Id> {
    set id | id in t && id in seen && Matches(s, id, t[id])
  }

  // ---------------------------------------------------------------------
  // What a statement leaves alone
  // ---------------------------------------------------------------------

  predicate SameVerdict(a: Row, b: Row) {
    && a.health == b.health && a.healthMessage == b.healthMessage
    && a.accessMode == b.accessMode && a.lastVerifiedAt == b.lastVerifiedAt
  }

  predicate SameStamps(a: Row, b: Row) {
    && a.status == b.status && a.activatedAt == b.activatedAt && a.retiredAt == b.retiredAt
  }

  predicate SameConfig(a: Row, b: Row) {
    && a.name == b.name && a.baseUrl == b.baseUrl && a.realm == b.realm && a.clientId == b.clientId
  }

  /** Which of a row's four groups of columns each statement may write: only an edit
      moves configuration, only an edit or a re-seal the secret, only a verdict or a
      probe-changing edit the verdict, only promotion and retirement the status; and a
      re-seal does not even move updated_at. */
  lemma StatementsWriteTheirColumns(s: Statement, r: Row)
    ensures var b := Assign(s, r);
            && b.workspaceId == r.workspaceId && b.createdAt == r.createdAt
            && (!s.EditDraft? ==> SameConfig(r, b))
            && (!s.EditDraft? && !s.ReSeal? ==> b.Secret() == r.Secret())
            && (!s.EditDraft? && !s.RecordVerdict? ==> SameVerdict(r, b))
            && (s.EditDraft? || s.RecordVerdict? || s.ReSeal? ==> SameStamps(r, b))
            && (s.ReSeal? ==> b.updatedAt == r.updatedAt && b.Secret() == s.wrapped)
            && (s.PromoteDraft? ==>
                  b.status.Active? && b.activatedAt == Some(s.now) && b.retiredAt == r.retiredAt
                  && b.updatedAt == s.now)
            && (s.RetireRow? || s.RetireIncumbents? ==>
                  b.status.Retired? && b.retiredAt == Some(s.now) && b.activatedAt == r.activatedAt
                  && b.updatedAt == s.now)
            && (s.RecordVerdict? ==>
                  && (b.health.Healthy? <==> s.report.ok) && !b.health.HealthUnknown?
                  && b.healthMessage == Some(s.report.summary) && b.accessMode == s.report.accessMode
                  && b.lastVerifiedAt == Some(s.report.checkedAt) && b.updatedAt == s.report.checkedAt)
  {
  }

  /** An edit is exact, column by column, and drops the verdict if and only if it
      touches something the verdict was about. */
  lemma EditIsExact(r: Row, p: ConfigPatch, sealed: Option<Sealed>, now: Time)
    ensures var b := Edit(r, p, sealed, now);
            && (if p.name.Some? then b.name == p.name.value else b.name == r.name)
            && (if p.baseUrl.Some? then b.baseUrl == p.baseUrl.value else b.baseUrl == r.baseUrl)
            && (if p.realm.Some? then b.realm == p.realm.value else b.realm == r.realm)
            && (if p.clientId.Some? then b.clientId == p.clientId.value else b.clientId == r.clientId)
            && (if sealed.Some? then b.Secret() == sealed.value else b.Secret() == r.Secret())
            && (if ChangesProbe(p, sealed) then b.health.HealthUnknown? && b.lastVerifiedAt.None?
                else SameVerdict(r, b))
            && (!ChangesProbe(p, sealed) ==> b == r.(name := b.name, updatedAt := now))
            && b.updatedAt == now
  {
  }

  /** The patch and the credential that turn one row's configuration into another's:
      only what differs. */
  function Difference(a: Row, b: Row): ConfigPatch {
    ConfigPatch(if a.name == b.name then None else Some(b.name),
                if a.baseUrl == b.baseUrl then None else Some(b.baseUrl),
                if a.realm == b.realm then None else Some(b.realm),
                if a.clientId == b.clientId then None else Some(b.clientId))
  }

  function NewCredential(a: Row, b: Row): Option<Sealed> {
    if a.Secret() == b.Secret() then None else Some(b.Secret())
  }

  /** What a probe of the row would be pointed at. */
  predicate SameTarget(a: Row, b: Row) {
    a.baseUrl == b.baseUrl && a.realm == b.realm && a.clientId == b.clientId && a.Secret() == b.Secret()
  }

  /** An edit can take any draft to any configuration, and the verdict outlives it if
      and only if a probe would still see what it saw. */
  lemma EditReachesTarget(a: Row, b: Row, now: Time)
    ensures var e := Edit(a, Difference(a, b), NewCredential(a, b), now);
            && SameConfig(e, b) && e.Secret() == b.Secret()
            && (SameTarget(a, b) ==> SameVerdict(a, e))
            && (!SameTarget(a, b) ==> e.health.HealthUnknown? && e.lastVerifiedAt.None?)
  {
    EditIsExact(a, Difference(a, b), NewCredential(a, b), now);
  }

  function Over<T>(late: Option<T>, early: Option<T>): Option<T> { if late.Some? then late else early }

  function PatchOver(q: ConfigPatch, p: ConfigPatch): ConfigPatch {
    ConfigPatch(Over(q.name, p.name), Over(q.baseUrl, p.baseUrl), Over(q.realm, p.realm), Over(q.clientId, p.clientId))
  }

  /** Two edits in a row are one edit with the later values on top: no verdict slips
      through between them. */
  lemma EditsCompose(r: Row, p: ConfigPatch, s: Option<Sealed>, first: Time,
                     q: ConfigPatch, u: Option<Sealed>, second: Time)
    ensures Edit(Edit(r, p, s, first), q, u, second) == Edit(r, PatchOver(q, p), Over(u, s), second)
  {
  }

  // ---------------------------------------------------------------------
  // What the schema enforces
  // ---------------------------------------------------------------------

  predicate ActiveIn(r: Row, workspaceId: Id) { r.status.Active? && r.workspaceId == workspaceId }

  /** The partial unique index on workspace_id WHERE status = 'active'. */
  predicate OneActive(t: Table) {
    forall a, b :: a in t && b in t && a != b && t[a].status.Active? && t[b].status.Active? ==>
      t[a].workspaceId != t[b].workspaceId
  }

  predicate AllChecks(t: Table) { forall id :: id in t ==> RowChecks(t[id]) }

  predicate SchemaHolds(t: Table) { AllChecks(t) && OneActive(t) }

  datatype StatementResult = Updated(table: Table, count: nat) | DuplicateKey | CheckViolation

  function Execute(t: Table, s: Statement): StatementResult {
    var after := UpdateSeen(t, s, t.Keys);
    if !AllChecks(after) then CheckViolation
    else if !OneActive(after) then DuplicateKey
    else Updated(after, |Affected(t, s, t.Keys)|)
  }

  /** What each statement's own columns must satisfy for its rows to be storable. */
  predicate Storable(s: Statement) {
    match s
    case EditDraft(_, p, sealed, _) =>
      && (p.name.Some? ==> NotBlank(p.name.value)) && (p.baseUrl.Some? ==> NotBlank(p.baseUrl.value))
      && (p.realm.Some? ==> NotBlank(p.realm.value)) && (p.clientId.Some? ==> NotBlank(p.clientId.value))
      && (sealed.Some? ==> SealedStorable(sealed.value))
    case ReSeal(_, _, sealed) => SealedStorable(sealed)
    case _ => true
  }

  predicate SealedStorable(s: Sealed) {
    && (s.ciphertext.Foreign? ==> |s.ciphertext.bytes| > 0)
    && |s.nonce| > 0 && s.keyVersion >= 1
  }

  /** A statement trips a CHECK exactly when its own values are not storable: the status
      guards in the WHERE clauses keep the timestamps in step with the state. */
  lemma StatementKeepsChecks(s: Statement, id: Id, r: Row)
    requires RowChecks(r) && Matches(s, id, r)
    ensures RowChecks(Assign(s, r)) <==> Storable(s)
  {
  }

  lemma UpdateKeepsChecks(t: Table, s: Statement, seen: set<Id>)
    requires AllChecks(t) && Storable(s)
    ensures AllChecks(UpdateSeen(t, s, seen))
  {
    forall id | id in t ensures RowChecks(UpdateSeen(t, s, seen)[id]) {
      if id in seen && Matches(s, id, t[id]) { StatementKeepsChecks(s, id, t[id]); }
    }
  }

  // ---------------------------------------------------------------------
  // What a stored row may turn into
  // ---------------------------------------------------------------------

  /** The history of one row may only move this way: configuration is settled
      once it leaves draft, retired is terminal, and each lifecycle timestamp is
      written at most once. */
  predicate Evolves(a: Row, b: Row) {
    && a.workspaceId == b.workspaceId && a.createdAt == b.createdAt
    && (!a.status.Draft? ==> !b.status.Draft? && SameConfig(a, b) && a.activatedAt == b.activatedAt)
    && (a.status.Retired? ==> b.status.Retired?)
    && (a.activatedAt.Some? ==> b.activatedAt == a.activatedAt)
    && (a.retiredAt.Some? ==> b.retiredAt == a.retiredAt)
  }

  lemma EvolvesTransitive(a: Row, b: Row, c: Row)
    requires Evolves(a, b) && Evolves(b, c)
    ensures Evolves(a, c)
  {
  }

  lemma StatementEvolves(s: Statement, id: Id, r: Row)
    requires RowChecks(r) && Matches(s, id, r)
    ensures Evolves(r, Assign(s, r))
  {
  }

  /** Only PromoteDraft brings a row into service. */
  lemma OnlyPromotionActivates(s: Statement, id: Id, r: Row, w: Id)
    requires Matches(s, id, r) && ActiveIn(Assign(s, r), w)
    ensures s.PromoteDraft? || ActiveIn(r, w)
  {
  }
}
