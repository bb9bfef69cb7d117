/** A workspace's configured access to an identity provider: lifecycle states,
    the guards the service asks before writing, and the row that stores it. */
module ConnectionModel {
  import opened Prelude
  import opened Secrets

  type Id = nat       // a UUID, read as the 128-bit number it is
  type Time = int     // nanoseconds

  /** How long a passing probe authorizes an activation: one hour. */
  const VERIFY_VALIDITY: Time := 3_600_000_000_000

  datatype Status = Draft | Active | Retired
  datatype Health = HealthUnknown | Healthy | Unhealthy
  datatype AccessMode = AccessUnknown | AccessFull | AccessReadOnly | AccessLimited

  datatype Error =
    | ErrAlreadyActive
    | ErrRetired
    | ErrNotVerified
    | ErrVerificationExpired
    | ErrNotDraft
    | ErrActiveCannotDelete
    | ErrWorkspaceHasActive
    | ErrDatabase

  datatype Connection = Connection(
    id: Id, workspaceId: Id, name: string, status: Status,
    baseUrl: string, realm: string, clientId: string,
    health: Health, healthMessage: string, accessMode: AccessMode, lastVerifiedAt: Option<Time>,
    createdAt: Time, updatedAt: Time, activatedAt: Option<Time>, retiredAt: Option<Time>)
  {
    predicate IsVerified(now: Time) {
      health.Healthy? && lastVerifiedAt.Some? && now - lastVerifiedAt.value <= VERIFY_VALIDITY
    }

    function CanActivate(now: Time): Option<Error> {
      match status
      case Active => Some(ErrAlreadyActive)
      case Retired => Some(ErrRetired)
      case Draft =>
        if !health.Healthy? then Some(ErrNotVerified)
        else if !IsVerified(now) then Some(ErrVerificationExpired)
        else None
    }

    function CanRetire(): Option<Error> {
      if status.Retired? then Some(ErrRetired) else None
    }

    function CanDelete(): Option<Error> {
      if status.Active? then Some(ErrActiveCannotDelete) else None
    }

    function CanUpdate(): Option<Error> {
      match status
      case Active => Some(ErrNotDraft)
      case Retired => Some(ErrRetired)
      case Draft => None
    }
  }

  /** One row of the connections table. The four secret columns are one value in
      four places; `WithSecret` is the only way this model writes any of them. */
  datatype Row = Row(
    workspaceId: Id, name: string, status: Status,
    baseUrl: string, realm: string, clientId: string,
    secretCiphertext: Ciphertext, secretNonce: seq<int>, secretKeyVersion: int, secretAlg: string,
    health: Health, healthMessage: Option<string>, accessMode: AccessMode, lastVerifiedAt: Option<Time>,
    createdAt: Time, updatedAt: Time, activatedAt: Option<Time>, retiredAt: Option<Time>)
  {
    function Secret(): Sealed {
      Sealed(secretCiphertext, secretNonce, secretKeyVersion, secretAlg)
    }

    function WithSecret(s: Sealed): Row {
      this.(secretCiphertext := s.ciphertext, secretNonce := s.nonce,
            secretKeyVersion := s.keyVersion, secretAlg := s.algorithm)
    }
  }

  function SecretAad(id: Id): Aad { Aad("connection", id, "client_secret") }

  function ToDomain(id: Id, r: Row): Connection {
    Connection(id, r.workspaceId, r.name, r.status, r.baseUrl, r.realm, r.clientId,
               r.health, match r.healthMessage { case None => "" case Some(m) => m },
               r.accessMode, r.lastVerifiedAt, r.createdAt, r.updatedAt, r.activatedAt, r.retiredAt)
  }

  function RowFrom(c: Connection, s: Sealed): Row {
    Row(c.workspaceId, c.name, c.status, c.baseUrl, c.realm, c.clientId,
        s.ciphertext, s.nonce, s.keyVersion, s.algorithm,
        c.health, if c.healthMessage == "" then None else Some(c.healthMessage),
        c.accessMode, c.lastVerifiedAt, c.createdAt, c.updatedAt, c.activatedAt, c.retiredAt)
  }

  predicate NotBlank(s: string) { exists c :: c in s && c != ' ' }

  /** The CHECK constraints of the connections table. */
  predicate RowChecks(r: Row) {
    && (r.status.Retired? <==> r.retiredAt.Some?)
    && (r.status.Draft? ==> r.activatedAt.None?)
    && (r.status.Active? ==> r.activatedAt.Some?)
    && (r.health.HealthUnknown? <==> r.lastVerifiedAt.None?)
    && NotBlank(r.name) && NotBlank(r.baseUrl) && NotBlank(r.realm) && NotBlank(r.clientId)
    && (r.secretCiphertext.Foreign? ==> |r.secretCiphertext.bytes| > 0)
    && |r.secretNonce| > 0
    && r.secretKeyVersion >= 1
  }

  /** The guards partition the lifecycle: a connection that may be edited or
      activated is a draft, one that may be deleted is not serving traffic, and
      nothing leaves the retired state. Each refusal has its own cause: a draft is not
      verified when its last probe did not find it healthy, and expired when that probe is
      more than an hour old. */
  lemma GuardsFollowTheLifecycle(c: Connection, now: Time)
    ensures c.CanActivate(now).None? <==> c.status.Draft? && c.IsVerified(now)
    ensures c.IsVerified(now) <==>
              c.health.Healthy? && c.lastVerifiedAt.Some? && now <= c.lastVerifiedAt.value + 3_600 * 1_000_000_000
    ensures c.CanActivate(now) == Some(ErrNotVerified) <==> c.status.Draft? && !c.health.Healthy?
    ensures c.CanActivate(now) == Some(ErrVerificationExpired) <==>
              c.status.Draft? && c.health.Healthy? && !c.IsVerified(now)
    ensures c.CanActivate(now) == Some(ErrAlreadyActive) <==> c.status.Active?
    ensures c.CanUpdate() == Some(ErrNotDraft) <==> c.status.Active?
    ensures c.CanDelete() == Some(ErrActiveCannotDelete) <==> c.status.Active?
    ensures c.CanRetire() == Some(ErrRetired) <==> c.status.Retired?
    ensures c.CanUpdate().None? <==> c.status.Draft?
    ensures c.status.Retired? <==> c.CanRetire().Some?
    ensures c.status.Retired? ==>
              c.CanActivate(now) == c.CanUpdate() == c.CanRetire() == Some(ErrRetired)
    ensures c.CanDelete().None? <==> !c.status.Active?
    ensures c.CanActivate(now).None? ==> c.CanDelete().None? && c.CanRetire().None?
    ensures forall later :: now <= later && c.CanActivate(later).None? ==> c.CanActivate(now).None?
  {
  }

  /** When a new draft can be stored: its four coordinates are not blank, its verdict, if
      any, has its time, its lifecycle stamps are empty and its secret columns are filled. */
  lemma DraftIsStorableIff(c: Connection, s: Sealed)
    requires c.status.Draft?
    ensures RowChecks(RowFrom(c, s)) <==>
            && (forall text :: text in [c.name, c.baseUrl, c.realm, c.clientId] ==> exists x :: x in text && x != ' ')
            && (c.health.HealthUnknown? <==> c.lastVerifiedAt.None?)
            && c.activatedAt.None? && c.retiredAt.None?
            && (s.ciphertext.Foreign? ==> s.ciphertext.bytes != []) && s.nonce != [] && s.keyVersion >= 1
  {
    var texts := [c.name, c.baseUrl, c.realm, c.clientId];
    assert texts[0] == c.name && texts[1] == c.baseUrl && texts[2] == c.realm && texts[3] == c.clientId;
    assert c.name in texts && c.baseUrl in texts && c.realm in texts && c.clientId in texts;
  }

  /** A stored row's lifecycle stamps determine its status. */
  lemma StatusIsReadOffTheStamps(r: Row)
    requires RowChecks(r)
    ensures r.status == if r.retiredAt.Some? then Retired else if r.activatedAt.Some? then Active else Draft
  {
  }

  /** A sealed credential opens in its own row and in no other. */
  lemma SealedForOneRow(ring: Keyring, id: Id, other: Id, plaintext: string, nonce: Nonce)
    requires plaintext != ""
    ensures ring.Open(ring.Seal(plaintext, SecretAad(id), nonce).value, SecretAad(other)) == Ok(plaintext)
            <==> id == other
  {
    SealThenOpen(ring, ring, plaintext, SecretAad(id), nonce);
  }

  /** Storing a connection and reading it back loses nothing; reading a row and
      storing it again loses only the difference between no message and an
      empty one. */
  lemma RowRoundTrip(c: Connection, s: Sealed, r: Row, id: Id)
    ensures ToDomain(c.id, RowFrom(c, s)) == c
    ensures RowFrom(c, s).Secret() == s
    ensures RowFrom(ToDomain(id, r), r.Secret()) == r <==> r.healthMessage != Some("")
  {
  }
}
