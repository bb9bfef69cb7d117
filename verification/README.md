# Verification of the LIGHTWEIGHT backend's core

A Dafny model of the parts of the backend where a mistake would lose a credential,
lose history or let the wrong caller through, with proofs of what they promise.
`dafny verify dfyconfig.toml` checks all of it.

| modules | what they model |
|---|---|
| `Secrets`, `ConnectionModel`, `ConnectionTable`, `Repository` | the connections table, its CHECK constraints and partial unique index, the repository's transactions with rollback, and a symbolic AEAD keyring |
| `Transactions`, `TransactionEffects` | the same statements and the rotator's lock, open, seal and guarded write as steps of any number of concurrent transactions, and what whole transactions leave behind |
| `Evidence` | probes, saved verdicts, CanActivate and Activate as separate steps of a run |
| `Census`, `Rotation`, `RotationRuns` | the rotation loop, its report, and the plan and census an operator reads before destroying a key |
| `TextOrder`, `AuditPaging`, `CursorCodec`, `AuditService` | the durable audit trail: keyset pagination, retention, the opaque cursor and the request parameters |
| `AuditMemory`, `AdminCheck` | the in-memory ring of recent events and the cached live-admin check |
| `Text`, `TextLaws`, `KeyringConfig`, `KeyringLaws` | the keyring variables: parser, printer and the legacy key |
| `EnvFile`, `EnvLayout` | regenerating `.env`: reader, writer and the variables in it |
| `Utf8`, `Redaction`, `PublicId`, `AuditRecorder` | what of an event may enter the audit table |
| `Authz`, `Scopes` | the authorization decision, the matrix derived from the registry, and scope normalization |

Code that updates state is a class or a method with loops, proved against a function of
the state before; the laws are lemmas about those functions. Where several processes
act at once the model is a step relation and the theorems are about every run of it.

## What the proofs found

- `Activate` can succeed and leave the named workspace with no active connection, because
  the incumbent's retirement commits whatever the promotion then finds
  (internal/connection/repository.go:417-450). Two inputs do it: an id that is gone, and a
  draft of another workspace, which is promoted there (`Repository.ForeignDraftCostsTheIncumbent`),
  since the row's workspace is never checked. After a success the workspace has an active
  connection exactly when the id exists and is in it: `Repository.WorkspaceStaysServedIff`,
  and the contract of `Activate`. The service names the row's own workspace and rolls back
  when the id is gone (internal/connection/service.go:361-374), so the defect is the repository's.
- The duplicate-key outcome of `Activate` can be reached only for a draft of another
  workspace (`Repository.PromotionOutcome`), and not in a serial run of calls that name the
  row's own workspace.
- CanActivate and Activate read the clock separately (internal/connection/service.go:344
  and 363), so the one-hour bound is an hour plus the gap (`Evidence.ActiveMeansVerified`,
  `Evidence.ClockReadTwiceOverruns`), and an edit between them activates an unverified row
  (`Evidence.OvertakenCheckActivatesUnverified`). The exact condition, for each activation
  and for whole runs, is that the check would still pass at the moment of activation:
  `Evidence.WithinTheHourIff`, `Evidence.ActiveWithinTheHourIff`.
- A verdict saved after an edit can be about coordinates the row no longer has
  (`Evidence.OvertakenVerdictIsStale`); it is about the present ones exactly when the
  probed target equals them: for one save `Evidence.SaveIsFresh`, over whole runs
  `Evidence.VerdictsFreshIff`. The save's WHERE clause asks for the id alone.
- A row's transaction that cannot begin leaves a failure with no id, no version and no
  reason in the report, because the closure that fills it in never runs and the repair
  after it passes over an outcome that is already a failure
  (internal/connection/rotate.go:375-379 and 496-500): a failure names its row exactly when
  the transaction began, `Rotation.FailuresAreExplained`.
- The rotation report's totals balance exactly when the listing and the census, two
  queries, agree on the number of rows to rotate: `RotationRuns.BalancedIff`.
- The rotator's version guard is not enough without its row lock, exactly when the other
  writer seals under the version the rotator read: `Transactions.GuardAloneResurrects`.
- The ring stamps an event before it takes its lock (internal/audit/memory.go:52-58), so the
  buffer need not be in time order and the early break can hide events:
  `AuditMemory.EarlyStopCanHide`, with the exact condition in `AuditMemory.SnapshotIsFilterIff`.
- A version's count of zero is sufficient for harmless removal but not necessary: rows that
  name an unsupported algorithm never opened anyway (`Census.SafeRemovalChangesNothing`).
- A line break in a text from project.json can replace an operator's value in `.env`
  (`EnvFile.LineBreakOverridesOperator`; for the keyring and the client ids,
  `EnvLayout.ClientIdsOverrideTheKeyring`). The operator's value survives exactly when the
  further lines do not say something else about it: `EnvFile.DerivedTextSparesIff`,
  `EnvLayout.KeyringSurvivesClientIdsIff`, and for every owned variable and any texts
  `EnvLayout.OwnedValueSurvivesIff`.
- The code reports `seal_failed` for a row that cannot be sealed again; the reasons
  documented beside the failure type do not list it. The model follows the code.
- "forbidden" shadows "provider_forbidden" in the reason vocabulary, so the latter is never
  stored: `Redaction.ProviderForbiddenIsNeverStored`.
- The legacy key is documented as equivalent to `1:<key>`; they differ exactly when the key
  holds a comma and the pieces spell out a keyring: `KeyringLaws.LegacyIsVersionOne`.
- DB_URL is written with project.json's PostgreSQL port while POSTGRES_HOST_PORT keeps the
  operator's (internal/bootstrap/generate.go:263 and 305), so the address points elsewhere
  exactly when the operator has set another port: `EnvLayout.DatabaseAddressAgreesIff`.
- With identity management off, a value set for KEYCLOAK_ADMIN_CLIENT_SECRET is written
  empty by a regeneration and lost: `EnvLayout.CredentialsSurvive`.
- Cursor decoding skips line breaks and takes a number however it is written, so several
  tokens name one position: `CursorCodec.LineBreaksAreSkipped`, `CursorCodec.TokensNaming`.

## Model

| member | source | states |
|---|---|---|
| ConnectionModel.GuardsFollowTheLifecycle | internal/connection/model.go:192-263 | The four guards partition the lifecycle: activatable means draft and verified within the hour, editable means draft, deletable means not active, nothing leaves retired; each refusal has its own cause, if and only if; a later clock never makes an activation allowed that an earlier one refused. |
| ConnectionModel.RowRoundTrip | internal/connection/repository.go:94-188 | Storing a connection and reading it back loses nothing, and the reverse loses only the difference between no health message and an empty one. |
| ConnectionModel.DraftIsStorableIff | internal/database/migrations/000003_connections.up.sql:66-128 | A new draft can be stored if and only if none of its four coordinates is blank, its verdict and its time come together, its lifecycle stamps are empty and its secret columns are filled. |
| ConnectionModel.StatusIsReadOffTheStamps | internal/database/migrations/000003_connections.up.sql:66-128 | In every stored row the two lifecycle stamps determine the status. |
| ConnectionModel.SealedForOneRow | internal/connection/service.go:488-496 | A credential sealed for one row opens in that row and in no other. |
| Secrets.SealThenOpen | internal/secrets/keyring.go:175-194 | What a ring seals it opens again; another ring opens it exactly when it holds the same key under that version; no ring opens it under other associated data. |
| Secrets.OpensIff | internal/secrets/keyring.go:180-194 | A value opens if and only if its algorithm is supported, its version held, its nonce full and the one it was made with, its key that version's and the associated data the same; an unsupported algorithm and a missing version are told apart, each if and only if. |
| Secrets.NewKeyring | internal/secrets/keyring.go:93-118 | A keyring is built if and only if the material is non-empty, 32-byte keys under distinct versions from 1 up, with the current one among them; each refusal names a version that is at fault as it says. |
| Secrets.WithoutIsValid | internal/secrets/keyring.go:155-167 | A ring stays valid when any version but the current one is dropped. |
| ConnectionTable.StatementKeepsChecks | internal/database/migrations/000003_connections.up.sql:66-128 | A statement of the repository, on a row its WHERE clause matches, breaks a CHECK constraint if and only if its own values are not storable. |
| ConnectionTable.StatementsWriteTheirColumns | internal/connection/repository.go:310-504 | Each statement writes only its own group of columns (configuration, secret, verdict, lifecycle), and writes there what it is given; a re-seal does not move updated_at. |
| ConnectionTable.StatementsFindTheirRows | internal/connection/repository.go:310-504 | Which row each WHERE clause finds: one by its id in a state that allows the change, the workspace's active rows but for the successor, or the row still at the version read. |
| ConnectionTable.EditReachesTarget | internal/connection/repository.go:310-345 | An edit made of the differences takes any row to any configuration and credential, and the verdict outlives it if and only if a probe would still see what it saw. |
| ConnectionTable.EditsCompose | internal/connection/repository.go:310-345 | Two edits in a row are one edit with the later values on top, so no verdict slips through between them. |
| ConnectionTable.StatementEvolves | internal/connection/repository.go:310-504 | Every statement moves a row only along the lifecycle: settled configuration outside draft, retired terminal, each lifecycle timestamp written at most once. |
| ConnectionTable.OnlyPromotionActivates | internal/connection/repository.go:433-439 | Promotion is the only statement that brings a row into service. |
| Repository.PostgresRepository.Create | internal/connection/repository.go:199-206 | Inserts exactly one row or changes nothing; a draft is stored if and only if its id is new and its columns are storable. |
| Repository.PostgresRepository.UpdateConfig | internal/connection/repository.go:310-365 | Edits exactly the one draft, dropping its verdict when the edit touches what was probed; absent, retired and active rows and edits that would break a CHECK give their own outcome, if and only if; any error leaves the table as it was. |
| Repository.PostgresRepository.SaveVerification | internal/connection/repository.go:372-403 | Writes the verdict to exactly one row whatever its status; any error leaves the table as it was. |
| Repository.PostgresRepository.Activate | internal/connection/repository.go:417-471 | Statement by statement with rollback: each error outcome if and only if its condition holds of the table before, every error leaves the table unchanged, every success leaves AfterActivation and, if and only if the id was one of the named workspace's rows, an active connection there; the schema holds throughout. |
| Repository.PostgresRepository.RetireConnection | internal/connection/repository.go:475-504 | Retires exactly one row that was not retired, or changes nothing. |
| Repository.PostgresRepository.Delete | internal/connection/repository.go:513-524 | Removes exactly one row that is not active, or changes nothing. |
| Repository.PostgresRepository.GetActiveByWorkspace | internal/connection/repository.go:254-267 | Finds the workspace's active connection, which the schema makes unique, or says there is none. |
| Repository.ActivationIsASwap | internal/connection/repository.go:417-471 | Activating a draft of the named workspace leaves it the workspace's only active row and changes at most it and the one incumbent. |
| Repository.ActivationKeepsSchema | internal/connection/repository.go:417-439 | The state after an activation satisfies the checks and the unique index unless the row's own workspace has an incumbent the call did not name. |
| Repository.WorkspaceStaysServedIff | internal/connection/repository.go:417-471 | After a successful activation the named workspace has an active connection if and only if the id exists and is in that workspace; any other connection it had is retired all the same. |
| Repository.ForeignDraftCostsTheIncumbent | internal/connection/repository.go:417-439 | Activating a draft of another workspace whose slot is free succeeds, puts the draft in service there and leaves the named workspace with no active connection. |
| Repository.PromotionOutcome | internal/connection/repository.go:433-446 | The duplicate-key outcome is reached exactly when the draft belongs to another workspace whose slot is taken; otherwise the promotion ends in AfterActivation. |
| Transactions.StepKeepsInv | internal/connection/rotate.go:367-502 | Every step of any number of concurrent transactions and rotators keeps the invariant. |
| Transactions.SchemaHoldsThroughout | internal/connection/repository.go:417-471 | In every reachable state of every interleaving each workspace has at most one active row and the lifecycle timestamps agree with the status. |
| Transactions.CredentialsSurvive | internal/connection/rotate.go:367-502 | In every reachable state each stored row opens to the plaintext last committed for it, and under any keyring at all to that or to nothing: rotation never changes or resurrects a credential, and the four secret columns are never seen partly updated. |
| Transactions.HistoryIsSettled | internal/connection/repository.go:310-504 | Between any two moments of any run a row only evolves, its plaintext is fixed once it has left draft, and, inserts bringing ids never used before, an id that was gone at any moment between is gone at the end. |
| Transactions.SettledCredential | internal/connection/rotate.go:476-483 | After a row leaves draft, whatever any keyring opens it to later is what any keyring opened it to before, and its coordinates are the same. |
| Transactions.WriteIsNeverLost | internal/connection/rotate.go:476-499 | Under the row lock a rotator's guarded write always finds its row, so the write-lost outcome is unreachable. |
| Transactions.GuardAloneResurrects | internal/connection/rotate.go:386-420 | Without the row lock a credential replaced between the rotator's read and its write comes back if and only if the writer sealed it under the version the rotator had read. |
| TransactionEffects.CreateCommits | internal/connection/repository.go:199-206 | Beside any transactions that do not hold its id, inserting a draft and committing adds exactly its row to the committed table, and the row opens to the credential. |
| TransactionEffects.StatementCommits | internal/connection/repository.go:310-504 | With nobody holding a lock, a one-statement transaction can run if and only if the database accepts the statement, and commits what the statement makes of the committed table. |
| TransactionEffects.RewriteCommits | internal/connection/repository.go:310-365 | An edit that replaces the credential commits what the statement makes of the table, and the edited draft opens to the new credential. |
| TransactionEffects.ActivationCommits | internal/connection/repository.go:417-471 | The two statements of an activation can run and commit if and only if no other row keeps the slot, and leave the committed table as AfterActivation says. |
| TransactionEffects.DeleteCommits | internal/connection/repository.go:513-524 | Removing a row and committing can run if and only if the row is not active, and takes exactly that row out. |
| TransactionEffects.RotationCommits | internal/connection/rotate.go:381-502 | From lock to commit the rotator's transaction over a row that is due and opens cannot be refused, and ends where RotateOne does: on the current version, opening to the same plaintext, nothing else moved. |
| TransactionEffects.RollbackLeavesNoTrace | internal/connection/repository.go:417-471 | Whatever any transactions do, as long as none commits the committed table stays exactly as it was. |
| TransactionEffects.CommitIsSerial | internal/connection/repository.go:417-471 | A transaction that begins, runs any steps and commits leaves the committed table as those steps alone would have left it, whatever other transactions do in between short of committing. |
| TransactionEffects.LockedRowsStay | internal/connection/rotate.go:381-420 | From the moment a transaction has touched or locked a row until it ends, no commit of anybody else changes that row. |
| Evidence.HealthyMeansProbed | internal/connection/repository.go:372-403 | In every run in which no edit falls between a probe and its save, every stored verdict was obtained with the row's present coordinates and with the credential the row now opens to, under whatever keyring opens it. |
| Evidence.SaveIsFresh | internal/connection/repository.go:381-387 | A saved verdict is about the row's present target if and only if the probed target equals it; saved with no edit in between, it always is. |
| Evidence.VerdictsFreshIff | internal/connection/repository.go:372-403 | Over whole runs: in every state every stored verdict is about its row's present coordinates and credential, if and only if at every save so far the probed target equalled the row's present one. |
| Evidence.StepsAreStatements | internal/connection/repository.go:199-524 | Every step of a run does to the table exactly what the repository's statement does to that one row, and probing, reading and asking do nothing. |
| Evidence.GoIsTwoStatements | internal/connection/repository.go:417-439 | An activation step is the retiring and the promoting statement, one after the other. |
| Evidence.RotateIsARotation | internal/connection/rotate.go:367-502 | A rotation step is the rotation of that row. |
| Evidence.StepsAreOpen | internal/connection/model.go:192-263 | Editing, retiring, deleting, asking and rotating are each possible if and only if the row's own guard lets them, or for a rotation the row opens. |
| Evidence.StepsGoOn | internal/connection/repository.go:372-471 | A probe's verdict can be saved whatever has become of its row short of deletion, and a checked activation goes through if and only if its row is still a draft and its slot is free of another workspace's. |
| Evidence.OvertakenVerdictIsStale | internal/connection/repository.go:381-387 | A probe overtaken by an edit marks healthy a row whose coordinates nothing ever probed. |
| Evidence.ActiveMeansVerified | internal/connection/service.go:334-376 | In every run whose activations act on the row CanActivate saw, every active row was healthy when activated, with a probe older than an hour by no more than the gap between the two clock readings. |
| Evidence.WithinTheHourIff | internal/connection/repository.go:433-439 | For every activation, whatever happened since its check: the activated row is healthy and probed within the hour of activated_at if and only if CanActivate, asked again on the row as it is and with the activation's clock reading, says yes. |
| Evidence.ActiveWithinTheHourIff | internal/connection/service.go:334-376 | Over whole runs: in every state every active row was healthy and probed within the hour when activated, if and only if every activation so far would have passed that guard. |
| Evidence.ClockReadTwiceOverruns | internal/connection/service.go:344-363 | The two clock readings can straddle the limit: an allowed run that activates past the hour. |
| Evidence.OvertakenCheckActivatesUnverified | internal/connection/repository.go:433-439 | Activation does not look at health again: an edit after the check yields an active connection that is not verified. |
| Census.Total | internal/connection/rotate.go:149-155 | The census of a table adds up to the number of its rows. |
| Census.Unopenable | internal/connection/rotate.go:163-171 | Exactly the census versions the ring lacks, ascending. |
| Census.SafeToRemove | internal/connection/rotate.go:177-188 | Exactly the ring's versions that are not current and that no row needs, ascending. |
| Census.SafeRemovalChangesNothing | internal/connection/rotate.go:173-188 | Removing a held, non-current version changes no row's result if and only if no row at that version names a supported algorithm, which a count of zero guarantees; a row at that version that opened fails afterwards for want of the key, and every other row that opened still opens. |
| Census.SafeRemovals | internal/connection/rotate.go:177-188 | Removing all the safe versions, one after another, changes what no row opens to. |
| Census.PlanFrom | internal/connection/rotate.go:286-303 | The plan's four numbers are counts of rows of the table itself: to rotate, current, blocked, and the versions missing. |
| Census.RenderStatus | internal/connection/secretscli.go:172-214 | Exits 1 if and only if some stored version is not held. |
| Rotation.OneRowRotates | internal/connection/rotate.go:367-502 | A rotated row differs in its secret columns alone, is on the current version and opens to the same plaintext; any other outcome leaves the table exactly as it was; rotated and already-current, each if and only if. |
| Rotation.FailuresAreExplained | internal/connection/rotate.go:367-502 | Each failure reason if and only if its cause is there, whatever fails in the database; a failure names its row and version if and only if the transaction began, and is blank otherwise. |
| Rotation.Rotator.RotateRow | internal/connection/rotate.go:367-502 | One transaction, statement by statement with rollback, does what RotateOne says, so OneRowRotates holds of it. |
| Rotation.GuardedWrite | internal/connection/rotate.go:476-483 | The guarded UPDATE under the lock updates exactly the row that was read, and succeeds. |
| Rotation.Rotator.Rotate | internal/connection/rotate.go:317-364 | Lists the rows not current in id order, then takes the census, then processes each: the table, the report and the run's error are those of From, beside whatever other writers commit; a listing or census that fails ends the run with nothing rotated and an empty report. |
| RotationRuns.EveryRowCountedOnce | internal/connection/rotate.go:341-363 | In any run beside any writers each listed row is counted exactly once; a cancelled run counts fewer. |
| RotationRuns.BalancedIff | internal/connection/rotate.go:324-344 | Total = AlreadyCurrent + Rotated + Failed in a finished run if and only if the listing and the later census saw equally many rows to rotate. |
| RotationRuns.OneInsertUnbalances | internal/connection/rotate.go:324-344 | A draft on an older version committed between the two queries makes a finished run report a total of one and nothing else. |
| RotationRuns.AloneBalances | internal/connection/rotate.go:317-364 | With no concurrent writers the totals of a finished run balance. |
| RotationRuns.CleanRunFinishes | internal/connection/rotate.go:317-364 | A run with no failure, beside writers that share the current version, leaves every row on it. |
| RotationRuns.CertifiedRemoval | internal/connection/rotate.go:163-188 | After such a run every other version has count zero and removing it changes what no row opens to. |
| RotationRuns.RotationOnlyRewraps | internal/connection/rotate.go:459-499 | With no concurrent writers a run, whatever fails in it, changes only listed rows, and those only by re-wrapping: plaintext, updated_at and every other column stay. |
| RotationRuns.FailedRowsStay | internal/connection/rotate.go:341-363 | With no concurrent writers a row a failure names is one of those listed and has its exact columns at the end of the run. |
| RotationRuns.ChangedRowsAreTheRotated | internal/connection/rotate.go:341-363 | With no concurrent writers exactly as many rows change as the report counts as rotated, so no failure, a blank one included, hides a change. |
| RotationRuns.EachRotationCounts | internal/connection/rotate.go:341-363 | With no concurrent writers the number of rows not on the current version falls by exactly Rotated. |
| RotationRuns.RetriesConverge | internal/connection/rotate.go:305-364 | With no concurrent writers, after any number of runs, whatever fails in them and wherever they stop, a fault-free run ends with the plaintexts, versions and other columns a single fault-free run on the first table would have given. |
| RotationRuns.CancelledAndResumed | internal/connection/rotate.go:341-349 | The case of one earlier run, cancelled or failing anywhere. |
| RotationRuns.RerunWritesNothing | internal/connection/rotate.go:317-364 | With no concurrent writers a rerun after a run without failures lists nothing, writes nothing and reports every row as current. |
| RotationRuns.RunFollowsKeys | internal/connection/rotate.go:367-502 | With no concurrent writers, no faults and keys that open what is held, each listed row is rotated if its version is held and fails with missing_key_version if not, and nothing else happens. |
| RotationRuns.PlanPredictsRun | internal/connection/rotate.go:286-303 | There Rotated = NeedRotation - Blocked and Failed = Blocked, all of them missing_key_version. |
| RotationRuns.ExitCodesAgree | internal/connection/secretscli.go:172-291 | With no concurrent writers, no faults and keys that open what is held, status, dry run and rotation exit with the same code. |
| RotationRuns.ReportIsTheTally | internal/connection/rotate.go:341-363 | Beside any writers and whatever fails, the report counts the outcomes of the rows up to where the run stopped, one by one, its failures in their order, and the table is the one those rows left. |
| RotationRuns.RowIsFineIff | internal/connection/rotate.go:367-502 | A row does not fail if and only if, as it is found, it is due, opens and nothing goes wrong with it, or it is not due and is read and its transaction closed. |
| RotationRuns.ExitIsZeroIff | internal/connection/secretscli.go:262-291 | In every run the exit code is 0 if and only if the run was stopped before no row and no row failed, for whatever reason or for none. |
| RotationRuns.SecretsRotate | internal/connection/secretscli.go:251-291 | The command exits 1 when a query fails, otherwise by the outcomes of the listed rows; an exit of 0 beside writers that share the current version leaves no row on another. |
| RotationRuns.PlanExitIff | internal/connection/secretscli.go:227-248 | A dry run exits 1 if and only if some row needs a key that is not held. |
| TextOrder.LexTotal | internal/auditlog/repository.go:158-165 | The tie-breaking order on ids is total and strict. |
| TextOrder.LexTransitive | internal/auditlog/repository.go:158-165 | The tie-breaking order on ids is transitive. |
| TextOrder.FirstDifferenceDecides | internal/auditlog/repository.go:158-165 | The first character two ids differ in decides their order, and an id comes before every longer one that starts with it. |
| AuditPaging.SplitIsLexicographic | internal/auditlog/repository.go:226-272 | The split range-and-tie predicate is the row comparison (occurred_at, id) < (t, i). |
| AuditPaging.OtherWorkspacesAreInvisible | internal/auditlog/repository.go:226-240 | A row of another workspace, or of none, anywhere in the table changes neither the rows of a page nor its next cursor. |
| AuditPaging.SortedDescends | internal/auditlog/repository.go:158-175 | The selection in query order holds exactly the selected rows, strictly descending, none twice. |
| AuditPaging.AuditStore.Record | internal/auditlog/repository.go:113-147 | Appends the row if and only if its id is new. |
| AuditPaging.AuditStore.List | internal/auditlog/repository.go:158-201 | Fetching one row more than fits yields the page of the sorted selection and the right next cursor, at every boundary; an empty workspace sees nothing. |
| AuditPaging.AuditStore.DeleteOlderThan | internal/auditlog/repository.go:210-218 | Keeps exactly the rows at or after the cutoff and counts the others. |
| AuditPaging.AuditStore.Purge | internal/auditlog/service.go:213-223 | Keeps exactly the rows inside the retention window; a non-positive window deletes nothing. |
| AuditPaging.PageFacts | internal/auditlog/repository.go:177-201 | A page is strictly descending, all of it selected, and every selected row left out is older than the next cursor. |
| AuditPaging.NeverTwice | internal/auditlog/repository.go:158-272 | Following next_cursor against a table that changes arbitrarily between requests returns rows in strictly descending order, so none twice; the k-th page holds selected rows of the table the k-th request found. |
| AuditPaging.NothingMissed | internal/auditlog/repository.go:158-272 | A matching row present for the whole run is returned, whatever is inserted or deleted around it. |
| AuditPaging.ResumeIsSuffix | internal/auditlog/repository.go:226-272 | Resuming after the j-th selected row selects exactly what follows it. |
| AuditPaging.StaticPages | internal/auditlog/repository.go:177-201 | On an unchanging table the pages are the sorted selection cut at the limit. |
| AuditPaging.StaticRun | internal/auditlog/service.go:134-152 | On an unchanging table the concatenated pages equal the sorted selection and the run ends after Requests(n, limit) requests. |
| AuditPaging.RequestsIsCeiling | internal/auditlog/service.go:134-152 | Requests(n, limit) is max(1, ceil(n / limit)), exact multiples included. |
| AuditPaging.NullableRoundTrip | internal/auditlog/repository.go:306-318 | Empty text survives storage as NULL, and only a stored empty text would not. |
| CursorCodec.Base64RoundTrip | internal/auditlog/service.go:180-205 | Unpadded base64url (section 5 of RFC 4648) decodes what it encodes, for every byte string. |
| CursorCodec.DecodesIff | internal/auditlog/service.go:185-190 | A text decodes if and only if, line breaks aside, it is characters of the alphabet, as many as whole bytes leave behind. |
| CursorCodec.KnownEncodings | internal/auditlog/service.go:180-183 | Agrees with examples of section 10 of RFC 4648, padding aside, and uses the two characters of its section 5. |
| CursorCodec.CursorRoundTrip | internal/auditlog/service.go:180-205 | Every int64 time with every non-empty id of at most 64 bytes, dots included, survives its token. |
| CursorCodec.TokenSpells | internal/auditlog/service.go:180-183 | A token's bytes are the time in nanoseconds, a dot and the id. |
| CursorCodec.TokensAreInjective | internal/auditlog/service.go:180-183 | Different positions have different tokens. |
| CursorCodec.DecodedIsEncodable | internal/auditlog/service.go:185-205 | Whatever token a client sends, what it decodes to is a position the format carries, and encoding that again is a fixed point. |
| CursorCodec.TokensNaming | internal/auditlog/service.go:185-205 | A token names a position if and only if its bytes are a text with a numeral for the position's time before the first dot and its id after it. |
| CursorCodec.LineBreaksAreSkipped | internal/auditlog/service.go:185-190 | Every position's own token with a line break in front is another token naming it, so decoding is not injective. |
| CursorCodec.TokensCarryPositions | internal/auditlog/service.go:121-129 | A request made with a page's token gets the page the position asks for, and a token for the next one. |
| AuditService.BuildQuery | internal/auditlog/service.go:61-127 | A request is accepted if and only if no parameter is unacceptable, an inverted time range among the reasons; a refusal names an unacceptable parameter; an accepted request becomes exactly the query its parameters say. |
| AuditService.List | internal/auditlog/service.go:61-130 | A request is refused for a parameter or answered with the page its query selects. |
| AuditService.AnswersMeanWhatWasAsked | internal/auditlog/service.go:61-130 | On the raw parameters: a page holds exactly the rows of the caller's workspace that equal every filter given, lie within the bounds given and past the cursor given, and are not past the page's own next cursor, newest first; there is a next cursor only on a full page with more such rows past it. |
| AuditService.AcceptableIff | internal/auditlog/service.go:61-152 | A request is acceptable if and only if its page size is absent or a number from 1 to 200, its event type is at most a hundred characters, its actor type and outcome are known ones, its times parse and are in order, and its cursor decodes. |
| AuditService.NothingAskedForIsMissed | internal/auditlog/repository.go:158-272 | Over a finished run of requests against changing tables, a row the raw parameters ask for that is there at every request is returned. |
| AuditService.OnlyWhatWasAskedFor | internal/auditlog/repository.go:158-272 | Every row returned over such a run is one the raw parameters ask for. |
| CursorCodec.TokensFollowPositions | internal/auditlog/service.go:121-129 | Over a whole run against changing tables a client holding only tokens gets, page for page, what following positions gives, so NeverTwice, NothingMissed and StaticRun hold of it. |
| CursorCodec.LimitIsRefusedNotClamped | internal/auditlog/service.go:134-152 | A page size in digits is taken as it is when between 1 and 200 and refused otherwise. |
| AuditMemory.MemoryRecorder.Record | internal/audit/memory.go:51-69 | Records exactly one event, stamped with the clock if it has no time of its own, and keeps the ring in step with the log it stands for. |
| AuditMemory.MemoryRecorder.Snapshot | internal/audit/memory.go:76-104 | Returns the newest min(n, capacity) events, newest first, up to the first not after `since` and to the limit, with the number evicted modulo 2^64. |
| AuditMemory.WindowIsExact | internal/audit/memory.go:76-104 | What a snapshot shows is the newest events, newest first, each after `since`, within the capacity and the limit, and it stops short of both only at the end or at an event that is not after `since`. |
| AuditMemory.SnapshotIsFilterIff | internal/audit/memory.go:76-104 | A snapshot equals filtering the retained events by `since` if and only if the limit is reached before the early break or no retained event after `since` was recorded before one that is not. |
| AuditMemory.SnapshotIsFilter | internal/audit/memory.go:92-97 | Time-ordered logs always satisfy that condition. |
| AuditMemory.EarlyStopCanHide | internal/audit/memory.go:92-97 | Out of time order the early break hides an event the filter shows. |
| AuditMemory.SlotIsModular | internal/audit/memory.go:89-91 | The modular index the snapshot walks with is the slot of the k-th newest event. |
| AdminCheck.CachedAdminChecker.IsAdmin | internal/auth/admin_check.go:110-137 | One caller at a time: an empty subject is denied, a fresh entry answers, an error is never stored, an answer is stored with its expiry. |
| AdminCheck.CachedAdminChecker.Invalidate | internal/auth/admin_check.go:141-148 | Removes exactly the subject's entry. |
| AdminCheck.CachedLookup | internal/auth/admin_check.go:110-121 | A lookup that finds an entry not yet expired answers with it and asks nobody; any other asks, with the cache untouched. |
| AdminCheck.UncachedLookup | internal/auth/admin_check.go:123-137 | An answer from upstream is stored for the ttl from the moment of storing and given to the caller; an error is given to the caller and not stored. |
| AdminCheck.StalenessBound | internal/auth/admin_check.go:110-137 | In every interleaving of lookups each non-error answer is upstream's answer at a moment less than the ttl before, plus only the time from that sample to its being stored; an error answers false. |
| AdminCheck.InvalidationTakesHold | internal/auth/admin_check.go:141-156 | After an invalidation no later lookup rests on an earlier sample unless the sampling lookup was in flight at the time. |
| KeyringConfig.KeysAreCommaFree | internal/secrets/aesgcm.go:213-235 | Text that decodes as a key consists of base64 characters, padding and line breaks, so holds no comma. |
| KeyringConfig.KeysAre43Characters | internal/secrets/aesgcm.go:213-235 | Text is accepted as a key if and only if, line breaks aside, it is 43 characters of one of the two base64 alphabets, with or without one padding character. |
| KeyringLaws.UrlKeysAre32Bytes | internal/secrets/aesgcm.go:213-235 | In the URL-safe alphabet that is the case if and only if the text decodes to 32 bytes. |
| KeyringLaws.EveryKeyCanBeWritten | internal/secrets/aesgcm.go:195-235 | Every 32 bytes have a text that is accepted and decodes to them. |
| KeyringConfig.KeyOfIff | internal/config/secrets.go:158-197 | An entry is a key if and only if it is a number from 1 up, its first colon and a key, white space around each aside. |
| KeyringConfig.WellFormedIff | internal/config/secrets.go:154-204 | A spec is accepted if and only if every entry is blank or a key, no two entries are keys of one version, and some entry is a key. |
| KeyringConfig.ParseKeyringSpec | internal/config/secrets.go:154-204 | Succeeds if and only if every entry is blank or a key, no version repeats and there is a key; the result is then the keys sorted by version. Otherwise the error is that of the first entry at fault, a repeated version counting before bad key material. |
| KeyringConfig.ParsedIsGood | internal/config/secrets.go:102-237 | A successful parse is "nothing configured" or non-empty, strictly ascending versions from 1 up with the current one among them. |
| KeyringConfig.ParseKeyringIff | internal/config/secrets.go:102-237 | Exactly when the three variables configure something, and what: nothing set at all; the legacy key alone, with version 1 or none nominated; or a spec alone that spells out a keyring, with a version nominated that one of its entries carries, or none nominated and a single key. |
| KeyringConfig.RefusedConfigs | internal/config/secrets.go:102-237 | Each refusal that is not the spec's own, if and only if: both keys set, a version for no keys, another version than 1 for the legacy key, several keys and none nominated, a nomination that is no number, or one no entry carries. |
| KeyringLaws.OrderAndSpacingDoNotMatter | internal/config/secrets.go:154-204 | Permuting the comma-separated entries and changing the white space around them changes neither success nor result. |
| KeyringLaws.RenderThenRead | internal/config/secrets.go:154-204 | Printing keys in any order and reading them gives them back sorted. |
| KeyringLaws.ConfigRoundTrip | internal/config/secrets.go:102-237 | Every good keyring survives printing and parsing, current version included. |
| KeyringLaws.PrintedFormIsEquivalent | internal/config/secrets.go:102-237 | Whatever was configured, in either form, its printed form configures the same keyring. |
| KeyringLaws.LegacyIsVersionOne | internal/config/secrets.go:113-138 | A legacy key configures what `1:key` does; the two disagree exactly when the key holds a comma and the comma-separated pieces of `1:key` spell out a keyring. |
| KeyringLaws.LegacyCommaDisagrees | internal/config/secrets.go:113-138 | Any two keys joined by ",2:" are refused as a legacy key and both accepted as a keyring. |
| Text.SplitOfJoin | internal/config/secrets.go:158 | Splitting joined pieces gives the pieces back when none holds the separator. |
| Text.TrimIsExact | internal/config/secrets.go:103-105 | Trimming takes white space off both ends, nothing else, and leaves none there. |
| Text.ParseOfFormat | internal/auditlog/service.go:180-205 | Printing and parsing a decimal integer gives it back if and only if it fits in 64 bits. |
| Text.ParseIntIff | internal/config/secrets.go:172-225 | A text parses to a number if and only if the number fits in 64 bits and the text is a sign, if wanted or needed, then zeros, if wanted, then the number as printed. |
| TextLaws.SplitTrimmed | internal/config/secrets.go:103-159 | Trimming a text before splitting changes no piece but by white space at its ends. |
| EnvFile.ParseEnvFile | internal/bootstrap/generate.go:120-138 | Reads a missing file as empty, skips blank lines, comments and lines without '=', and lets a later entry win. |
| EnvFile.LoadSecrets | internal/bootstrap/generate.go:47-65 | In whatever order the map is walked, each credential is the file's non-empty value or its placeholder. |
| EnvFile.CredentialsAre | internal/bootstrap/generate.go:47-65 | Each of the four credentials is the file's value under its own name, or its placeholder when the file has none or an empty one. |
| EnvFile.WriteEnv | internal/bootstrap/generate.go:180-399 | Writes the layout line after line; RegeneratedFileReads says what a reader then finds. |
| EnvFile.RegeneratedFileReads | internal/bootstrap/generate.go:120-399 | A regenerated file reads as exactly the layout's names with the layout's values; every other name of the old file is gone. |
| EnvFile.OperatorValuesSurvive | internal/bootstrap/generate.go:110-138 | A kept variable with a non-empty value has that value after write-then-read; one that is missing or empty has the default. |
| EnvFile.DerivedValuesWin | internal/bootstrap/generate.go:180-399 | A derived variable has its derived value whatever the file said. |
| EnvFile.RegenerationIsAFixpoint | internal/bootstrap/generate.go:150-167 | For every existing file and every good layout a second regeneration reproduces the first byte for byte. |
| EnvFile.OperatorValueSurvivesIff | internal/bootstrap/generate.go:110-138 | In any file written, one-line texts or not, an operator's value survives if and only if the lines written below it, read as a file, do not say something else about its name. |
| EnvFile.DerivedTextReads | internal/bootstrap/generate.go:180-399 | What a layout with one derived text of any kind reads as: the text's first line under its own name, and every further line of it as a line of the file. |
| EnvFile.DerivedTextSparesIff | internal/bootstrap/generate.go:180-399 | An operator's value survives a derived text further down if and only if the further lines of that text do not say something else about its name. |
| EnvFile.LineBreakOverridesOperator | internal/bootstrap/generate.go:180-399 | The family that shows it: in any layout a line break in a derived text followed by an entry for an operator's variable is what a reader finds, unless the name is assigned again further down. |
| EnvLayout.ClientIdsOverrideTheKeyring | internal/bootstrap/generate.go:180-399 | The family that shows it: a line break in the client ids followed by an entry for SECRETS_KEYRING replaces the operator's. |
| EnvLayout.KeyringSurvivesClientIdsIff | internal/bootstrap/generate.go:180-399 | In the real layout, comments and all, the operator's SECRETS_KEYRING survives if and only if the lines of the client ids after the first, read as a file, do not say something else about it. |
| EnvLayout.OwnedValueSurvivesIff | internal/bootstrap/generate.go:110-399 | For every operator-owned variable of the real layout, comments and all, whatever the project's texts hold: it survives if and only if what is written below it does not say something else about it. |
| EnvLayout.LayoutHolds | internal/bootstrap/generate.go:180-399 | The forty-one variables as written, with any comments between them, form a good layout when the project's text is on one line each. |
| EnvLayout.OperatorCanRegenerate | internal/bootstrap/generate.go:180-399 | For the real layout: regeneration is a fixpoint after one run and every operator-owned variable keeps its non-empty value. |
| EnvLayout.OwnedVariables | internal/bootstrap/generate.go:180-399 | Which of the variables an operator owns; the rest are decided at every regeneration. |
| EnvLayout.DefaultsAre | internal/bootstrap/generate.go:180-399 | What each owned variable is when the file has none. |
| EnvLayout.ProjectReachesTheFile | internal/bootstrap/generate.go:180-399 | The names, ports and switches of project.json are read back from the regenerated file under their variables, whatever the file said before. |
| EnvLayout.DatabaseAddressAgreesIff | internal/bootstrap/generate.go:260-305 | A regenerated DB_URL carries the user, the password and the database the file also holds; it carries the file's own host port if and only if the operator has not set another than project.json's. |
| EnvLayout.CredentialsSurvive | internal/bootstrap/generate.go:47-65 | Three of the four credentials are the same before and after; the admin client's is too if and only if identity management is on or it was the placeholder already. |
| Utf8.Truncate | internal/auditlog/redaction.go:211-222 | A text that fits is kept; of another the cut is at the last position up to the limit that is not inside a character. |
| Utf8.TruncateKeepsWholeCharacters | internal/auditlog/redaction.go:211-226 | On well-formed UTF-8 (section 4 of RFC 3629) the result is the longest whole-character prefix of at most max bytes. |
| Utf8.StartsAreBoundaries | internal/auditlog/redaction.go:224-226 | In well-formed text a byte is not a continuation byte if and only if a character starts there. |
| Redaction.ReasonCodeFor | internal/auditlog/redaction.go:97-108 | Returns the first code of the vocabulary the lowered text contains, the marker if none, nothing for no reason. |
| Redaction.CodeForIff | internal/auditlog/redaction.go:97-108 | A failure is stored under a code if and only if the code stands anywhere in the lowered text and none of the codes before it does, and under the marker if and only if none does. |
| Redaction.CodeInTextIsFound | internal/auditlog/redaction.go:97-108 | A code with any text before and after it is found, unless an earlier code is in the text too. |
| Redaction.ReasonsAreClosedAndStable | internal/auditlog/redaction.go:97-108 | The stored reason is from the closed set and storing it again changes nothing, for any good vocabulary. |
| Redaction.KnownVocabularyIsGood | internal/auditlog/redaction.go:44-91 | The codes in use form a good vocabulary. |
| Redaction.CodeIsKeptIff | internal/auditlog/redaction.go:97-108 | A code maps to itself if and only if it contains no earlier one. |
| Redaction.ProviderForbiddenIsNeverStored | internal/auditlog/redaction.go:54-57 | "provider_forbidden" is in the vocabulary and no text is ever stored under it. |
| Redaction.SafeMetadataValue | internal/auditlog/redaction.go:177-195 | Keeps scalars, cuts strings to 256 bytes, keeps of a list the first eight so cut, refuses nesting. |
| Redaction.SafeValuesAreBounded | internal/auditlog/redaction.go:177-195 | Exactly the nested values are refused; what is kept is bounded, and a bounded value is kept as it is. |
| Redaction.FilterMetadata | internal/auditlog/redaction.go:139-166 | In whatever order the map is walked, up to eight survivors the result is all of them; past eight, some eight of them. |
| Redaction.AllowlistMetadata | internal/auditlog/redaction.go:125-166 | With the allowlist in use the result never depends on the order: the scopes of a created credential, made safe, and nothing of any other event. |
| PublicId.NormalizeUuid | internal/publicid/publicid.go:141-162 | Accepts exactly the 8-4-4-4-12 form in either case, lowered. |
| PublicId.UuidShape | internal/publicid/publicid.go:141-162 | A UUID is 36 characters with hyphens at the four places and hexadecimal digits at the others; lowering moves letters to their small forms and nothing else. |
| PublicId.ParseOfFormat | internal/publicid/publicid.go:67-101 | Printing then parsing gives the id back, prefixed or bare; whatever parses is canonical. |
| PublicId.ParseIff | internal/publicid/publicid.go:83-101 | An id is accepted if and only if, white space around it aside, it is a UUID on its own or behind the prefix; it comes out lowered; it is of the wrong kind if and only if it has a separator and not this prefix in front. |
| PublicId.OtherKindIsWrongPrefix | internal/publicid/publicid.go:83-101 | An id of another kind is refused as such. |
| AuditRecorder.ToRecord | internal/auditlog/recorder.go:135-233 | Assembles exactly the row RowFor describes, or none for an event nobody can be named for. |
| AuditRecorder.RowsSayWhatHappened | internal/auditlog/recorder.go:135-250 | An event has a row if and only if it has an id, somebody to name and no workspace or one that parses; the row's workspace, outcome, reason, resource, address and metadata are each read off the event as stated. |
| AuditRecorder.UnstoredTextLeavesNoTrace | internal/auditlog/recorder.go:135-233 | Two events differing only in target name, user agent, the wording of a same-code reason or metadata outside the allowlist map to the same row up to its fresh id. |
| AuditRecorder.RowsAreRedacted | internal/auditlog/recorder.go:135-233 | What each column can hold: reason and resource kind from closed sets, a parsed address, bounded metadata under allowed keys, operator and project columns disjoint; event type, request id, resource id and the actor's identifiers are copies and not bounded. |
| AuditRecorder.Recorder.Record | internal/auditlog/recorder.go:81-114 | Adds the event's row unless it was already written, has no row, or the store refuses it. |
| AuditRecorder.Recorder.RecordTx | internal/auditlog/recorder.go:296-328 | Succeeds if and only if the stamped event has a row and the store takes it; otherwise adds nothing. |
| AuditRecorder.ControlPlane.Mutate | internal/logging/gin_helpers.go:235-259 | The domain changes if and only if one success row is added; an event the audit table could not take changes neither; any other failure, the commit's included, changes nothing but may add a failure row. |
| Authz.AllRoutes | internal/authz/matrix.go:41-49 | In whatever order the map is walked, the list holds exactly the registry's routes in strict key order. |
| Authz.ListIsDetermined | internal/authz/matrix.go:41-49 | So the registry determines the list. |
| Authz.ProjectReachableRoutes | internal/authz/matrix.go:56-64 | Produces exactly the routes of the registry that are not operator-only, in key order. |
| Authz.OperatorOnlyRoutes | internal/authz/matrix.go:71-79 | Produces exactly the operator-only routes of the registry, in key order. |
| Authz.ListsPartition | internal/authz/matrix.go:41-79 | The two derived lists add up to the registry, and each classified route is in the one its requirement says, under that requirement, and not in the other. |
| Authz.ProjectGrantedIff | internal/authz/authorize.go:51-187 | A project call is granted if and only if its route is in the derived reachable list, the workspaces match and that list's scope is held. |
| Authz.GrantedIff | internal/authz/authorize.go:51-187 | Whoever is let through, if and only if: on a classified route, an operator with the admin role and no live check or one that says yes, or a project in its own workspace holding the scope of a route that is not for operators alone. |
| Authz.RefusalsAreExplained | internal/authz/authorize.go:51-187 | Which refusal everybody else gets: nobody, an unclassified route, a missing role whatever the live check says, a failed check, a check that says no, and the project's four in their order. |
| Authz.OperatorsAreLiveAdmins | internal/authz/authorize.go:98-139 | In every interleaving of lookups an operator let through on an answer of the cached checker holds the role and was an administrator upstream within the ttl and the time the sample took to be stored; a failed answer lets nobody through. |
| Authz.GrantsAreMonotone | internal/authz/authorize.go:150-187 | More scopes never take a grant away, and a project is granted nothing a confirmed operator is not. |
| Authz.BindingIsBySubstance | internal/authz/authorize.go:197-207 | A workspace id matches the path if and only if the path parses to the same UUID, prefixed or bare. |
| Authz.HasScope | internal/authz/scope.go:146-153 | The search finds the scope if and only if it is held. |
| Authz.ValidateRegistry | internal/authz/registry.go:183-196 | Reports exactly the mounted routes without a classification, in text order; none if and only if all are classified. |
| Authz.ValidatedRoutesAreDecided | internal/authz/registry.go:177-196 | After a clean boot check the unclassified branch is unreachable on mounted routes. |
| Scopes.NormalizeScopes | internal/authz/scope.go:121-140 | Accepts if and only if every entry, trimmed and lowered, is a known scope, then yields each once; otherwise names the first that is not. |
| Scopes.FirstMentionOrder | internal/authz/scope.go:121-140 | The survivors stand in the order of their first mention. |
| Scopes.NormalFormIsStable | internal/authz/scope.go:121-140 | Normalizing again changes nothing, and no result is longer than the vocabulary. |
| Scopes.CredentialScopesAreStable | internal/authz/scope.go:90-140 | For the nine scopes in use: what a credential stores is at most nine known scopes, and normalizing it again gives it back. |
| Scopes.OrderOnlyOrders | internal/authz/scope.go:121-140 | Acceptance and the set of scopes do not depend on the order of the entries. |

## Left out

- Secrets.SealThenOpen: AES-GCM is symbolic. A ciphertext remembers key, nonce, plaintext and associated data; forging one, and drawing nonces, are outside the model. Associated data is a triple and an id is a number, where the code joins strings; that the joined text is injective is not shown.
- KeyringConfig.ParsedIsGood: the function it is about, `ParseKeyring`, reports every refused variable as one error; which it was is `ParseKeyringSpec`'s to say.
- KeyringConfig.KeysAreCommaFree: the four base64 spellings of a key are modelled by their alphabets and lengths, not by the bytes they decode to.
- Redaction.FilterMetadata: past eight survivors which eight are kept is left to the order of the map, as in the code.
- Redaction.ReasonsAreClosedAndStable: Unicode lower-casing is a parameter, required only to leave the vocabulary's own words alone.
- Scopes.NormalFormIsStable: lower-casing is the same parameter, under the same requirement.
- AuditRecorder.ToRecord: the address parser is a parameter; timestamps are integers, zero standing for Go's zero time; a failed id generation is an absent id.
- EnvLayout.LayoutHolds: the database name and the joined list of client ids come in as text; how they are derived from project.json is not modelled, nor are the words of the comments.
- Repository.PostgresRepository.Activate: the unique index is checked on the table a statement leaves, which for these single-row promotions is what a per-row check sees.
- Transactions.HistoryIsSettled: ids are random and the model takes them as never used before; without that hypothesis a deleted id could be inserted again.
- AuditRecorder.RowsAreRedacted: no bound is stated on the copied identifiers; whatever bounds them is applied where the event is captured.
- Transactions.StepKeepsInv: row locks, statement snapshots, commit, rollback and waiting on the unique index are modelled; deadlock and the database's other isolation machinery are not.
- AuditPaging.AuditStore.Record: rows carry the columns the query reads; the rest, and the JSON of the metadata column, are in `AuditRecorder` or absent.
- TextOrder.LexTotal: ids are compared as text, which for canonical lower-case UUIDs is the order PostgreSQL gives the uuid type.
- AuditService.BuildQuery: the RFC 3339 parser is a parameter; which of several unacceptable parameters a refusal names is not stated.
- AdminCheck.StalenessBound: the clock is assumed monotone and the mutex is the atomicity of each step.
- Rotation.Rotator.Rotate: other processes act between rows, not inside one row's transaction; what happens inside is `Transactions`.
- gorm, SQL text, HTTP handlers, status mapping, log lines and metrics.
- The realm export, the schema file and the prompt of the bootstrap command.
- The concrete /v1 route table: every theorem holds of any registry.
- Migrations, connection retry, configuration validation beyond the keyring, JWT validation and calls to Keycloak.
