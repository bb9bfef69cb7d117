/** The variables .env holds, in the order they are written, and where each value
    comes from: project.json, or the file as the operator left it. */
module EnvLayout {
  import opened Prelude
  import opened Text
  import opened EnvFile

  datatype Var =
    | KEYCLOAK_URL | KEYCLOAK_REALM | KEYCLOAK_CLIENT_ID | ADMIN_CONSOLE_CLIENT_ID | KEYCLOAK_JWKS_URL
    | KEYCLOAK_ADMIN_BASE_URL | POSTGRES_USER | POSTGRES_PASSWORD | POSTGRES_DB | DB_URL | DB_MIGRATE_ON_BOOT
    | SECRETS_KEYRING | SECRETS_KEY_CURRENT | SECRETS_MASTER_KEY | PORT | API_HOST_PORT | POSTGRES_HOST_PORT
    | GIN_LOG_ENABLED | GIN_ACCESS_LOG_ENABLED | SHUTDOWN_TIMEOUT_SECONDS | ADMIN_CONSOLE_ENABLED
    | CORS_ALLOWED_ORIGINS | KEYCLOAK_ALLOWED_CLIENT_IDS | RATE_LIMIT_EDGE_RPS | RATE_LIMIT_CREDENTIAL_RPS
    | AUDIT_RETENTION_DAYS | METRICS_ENABLED | METRICS_TOKEN | KEYCLOAK_CLIENT_SECRET | KEYCLOAK_ADMIN_CLIENT_ID
    | KEYCLOAK_ADMIN_CLIENT_SECRET | ADMIN_LIVE_CHECK_TTL_SECONDS | DEV_PLAYGROUND_ENABLED
    | DEV_PLAYGROUND_CLIENT_ID | KEYCLOAK_ADMIN | KEYCLOAK_ADMIN_PASSWORD | KC_HOST_PORT | KC_DB_USER
    | KC_DB_PASSWORD | KC_DB_NAME | SEED_USER_PASSWORD

  /** What the file takes from project.json. The database name and the joined
      client ids are already worked out. */
  datatype Project = Project(realm: string, clientId: string, adminUsername: string,
                             database: string, allowedClientIds: string,
                             apiPort: int, postgresPort: int, keycloakPort: int,
                             identityManagement: bool, devPlayground: bool)

  /** The text project.json supplies is on one line each. */
  predicate OneLineProject(p: Project) {
    && OneLine(p.realm) && OneLine(p.clientId) && OneLine(p.adminUsername)
    && OneLine(p.database) && OneLine(p.allowedClientIds)
  }

  /** Who decides a value. The database address mixes both. */
  datatype Source = FromProject(text: string) | FromFile(default: string) | Connection

  const IDENTITY_ADMIN_CLIENT := "saas-backend-admin"
  const PLAYGROUND_CLIENT := "saas-dev-playground"

  function SourceOf(v: Var, p: Project): Source {
    match v
    case KEYCLOAK_URL => FromProject("http://localhost:" + FormatInt(p.keycloakPort))
    case KEYCLOAK_REALM => FromProject(p.realm)
    case KEYCLOAK_CLIENT_ID => FromProject(p.clientId)
    case ADMIN_CONSOLE_CLIENT_ID => FromFile("")
    case KEYCLOAK_JWKS_URL => FromProject("http://keycloak:8080/realms/" + p.realm + "/protocol/openid-connect/certs")
    case KEYCLOAK_ADMIN_BASE_URL => FromProject("http://keycloak:8080")
    case POSTGRES_USER => FromFile("postgres")
    case POSTGRES_PASSWORD => FromFile("postgres")
    case POSTGRES_DB => FromProject(p.database)
    case DB_URL => Connection
    case DB_MIGRATE_ON_BOOT => FromFile("true")
    case SECRETS_KEYRING => FromFile("")
    case SECRETS_KEY_CURRENT => FromFile("")
    case SECRETS_MASTER_KEY => FromFile("")
    case PORT => FromProject(FormatInt(p.apiPort))
    case API_HOST_PORT => FromFile(FormatInt(p.apiPort))
    case POSTGRES_HOST_PORT => FromFile(FormatInt(p.postgresPort))
    case GIN_LOG_ENABLED => FromFile("true")
    case GIN_ACCESS_LOG_ENABLED => FromFile("true")
    case SHUTDOWN_TIMEOUT_SECONDS => FromFile("20")
    case ADMIN_CONSOLE_ENABLED => FromFile("true")
    case CORS_ALLOWED_ORIGINS => FromFile("")
    case KEYCLOAK_ALLOWED_CLIENT_IDS => FromProject(p.allowedClientIds)
    case RATE_LIMIT_EDGE_RPS => FromFile("10")
    case RATE_LIMIT_CREDENTIAL_RPS => FromFile("20")
    case AUDIT_RETENTION_DAYS => FromFile("90")
    case METRICS_ENABLED => FromFile("false")
    case METRICS_TOKEN => FromFile("")
    case KEYCLOAK_CLIENT_SECRET => FromFile(DefaultSecrets.clientSecret)
    case KEYCLOAK_ADMIN_CLIENT_ID => FromProject(if p.identityManagement then IDENTITY_ADMIN_CLIENT else "")
    case KEYCLOAK_ADMIN_CLIENT_SECRET =>
      if p.identityManagement then FromFile(DefaultSecrets.adminClientSecret) else FromProject("")
    case ADMIN_LIVE_CHECK_TTL_SECONDS => FromFile("30")
    case DEV_PLAYGROUND_ENABLED => FromProject(if p.devPlayground then "true" else "false")
    case DEV_PLAYGROUND_CLIENT_ID => FromProject(PLAYGROUND_CLIENT)
    case KEYCLOAK_ADMIN => FromProject(p.adminUsername)
    case KEYCLOAK_ADMIN_PASSWORD => FromFile(DefaultSecrets.adminPassword)
    case KC_HOST_PORT => FromProject(FormatInt(p.keycloakPort))
    case KC_DB_USER => FromFile("keycloak")
    case KC_DB_PASSWORD => FromFile("keycloak")
    case KC_DB_NAME => FromFile("keycloak")
    case SEED_USER_PASSWORD => FromFile(DefaultSecrets.seedUserPassword)
  }

  /** The variables an operator owns: everything else is project.json's to decide at every
      regeneration, the admin client's secret too while identity management is off. */
  lemma OwnedVariables(v: Var, p: Project)
    ensures SourceOf(v, p).FromFile? <==> (v == KEYCLOAK_ADMIN_CLIENT_SECRET && p.identityManagement) || v in {
      ADMIN_CONSOLE_CLIENT_ID, POSTGRES_USER, POSTGRES_PASSWORD, DB_MIGRATE_ON_BOOT, SECRETS_KEYRING,
      SECRETS_KEY_CURRENT, SECRETS_MASTER_KEY, API_HOST_PORT, POSTGRES_HOST_PORT, GIN_LOG_ENABLED,
      GIN_ACCESS_LOG_ENABLED, SHUTDOWN_TIMEOUT_SECONDS, ADMIN_CONSOLE_ENABLED, CORS_ALLOWED_ORIGINS,
      RATE_LIMIT_EDGE_RPS, RATE_LIMIT_CREDENTIAL_RPS, AUDIT_RETENTION_DAYS, METRICS_ENABLED, METRICS_TOKEN,
      KEYCLOAK_CLIENT_SECRET, ADMIN_LIVE_CHECK_TTL_SECONDS, KEYCLOAK_ADMIN_PASSWORD, KC_DB_USER, KC_DB_PASSWORD,
      KC_DB_NAME, SEED_USER_PASSWORD}
  {
    hide FormatInt;
  }

  /** What an owned variable is when the file has none. */
  lemma DefaultsAre(v: Var, p: Project)
    requires SourceOf(v, p).FromFile?
    ensures var d := SourceOf(v, p).default;
            && (v in {SECRETS_KEYRING, SECRETS_KEY_CURRENT, SECRETS_MASTER_KEY} ==> d == "")
            && (v in {METRICS_TOKEN, CORS_ALLOWED_ORIGINS, ADMIN_CONSOLE_CLIENT_ID} ==> d == "")
            && (v in {DB_MIGRATE_ON_BOOT, GIN_LOG_ENABLED, GIN_ACCESS_LOG_ENABLED, ADMIN_CONSOLE_ENABLED} ==>
                  d == "true")
            && (v.METRICS_ENABLED? ==> d == "false")
            && (v in {POSTGRES_USER, POSTGRES_PASSWORD} ==> d == "postgres")
            && (v in {KC_DB_USER, KC_DB_PASSWORD, KC_DB_NAME} ==> d == "keycloak")
            && (v.RATE_LIMIT_EDGE_RPS? ==> d == "10")
            && (v in {RATE_LIMIT_CREDENTIAL_RPS, SHUTDOWN_TIMEOUT_SECONDS} ==> d == "20")
            && (v.ADMIN_LIVE_CHECK_TTL_SECONDS? ==> d == "30") && (v.AUDIT_RETENTION_DAYS? ==> d == "90")
            && (v.API_HOST_PORT? ==> d == FormatInt(p.apiPort))
            && (v.POSTGRES_HOST_PORT? ==> d == FormatInt(p.postgresPort))
  {
    hide FormatInt;
  }

  function NameOf(v: Var): string {
    match v
    case KEYCLOAK_URL => "KEYCLOAK_URL"
    case KEYCLOAK_REALM => "KEYCLOAK_REALM"
    case KEYCLOAK_CLIENT_ID => "KEYCLOAK_CLIENT_ID"
    case ADMIN_CONSOLE_CLIENT_ID => "ADMIN_CONSOLE_CLIENT_ID"
    case KEYCLOAK_JWKS_URL => "KEYCLOAK_JWKS_URL"
    case KEYCLOAK_ADMIN_BASE_URL => "KEYCLOAK_ADMIN_BASE_URL"
    case POSTGRES_USER => "POSTGRES_USER"
    case POSTGRES_PASSWORD => "POSTGRES_PASSWORD"
    case POSTGRES_DB => "POSTGRES_DB"
    case DB_URL => "DB_URL"
    case DB_MIGRATE_ON_BOOT => "DB_MIGRATE_ON_BOOT"
    case SECRETS_KEYRING => "SECRETS_KEYRING"
    case SECRETS_KEY_CURRENT => "SECRETS_KEY_CURRENT"
    case SECRETS_MASTER_KEY => "SECRETS_MASTER_KEY"
    case PORT => "PORT"
    case API_HOST_PORT => "API_HOST_PORT"
    case POSTGRES_HOST_PORT => "POSTGRES_HOST_PORT"
    case GIN_LOG_ENABLED => "GIN_LOG_ENABLED"
    case GIN_ACCESS_LOG_ENABLED => "GIN_ACCESS_LOG_ENABLED"
    case SHUTDOWN_TIMEOUT_SECONDS => "SHUTDOWN_TIMEOUT_SECONDS"
    case ADMIN_CONSOLE_ENABLED => "ADMIN_CONSOLE_ENABLED"
    case CORS_ALLOWED_ORIGINS => "CORS_ALLOWED_ORIGINS"
    case KEYCLOAK_ALLOWED_CLIENT_IDS => "KEYCLOAK_ALLOWED_CLIENT_IDS"
    case RATE_LIMIT_EDGE_RPS => "RATE_LIMIT_EDGE_RPS"
    case RATE_LIMIT_CREDENTIAL_RPS => "RATE_LIMIT_CREDENTIAL_RPS"
    case AUDIT_RETENTION_DAYS => "AUDIT_RETENTION_DAYS"
    case METRICS_ENABLED => "METRICS_ENABLED"
    case METRICS_TOKEN => "METRICS_TOKEN"
    case KEYCLOAK_CLIENT_SECRET => "KEYCLOAK_CLIENT_SECRET"
    case KEYCLOAK_ADMIN_CLIENT_ID => "KEYCLOAK_ADMIN_CLIENT_ID"
    case KEYCLOAK_ADMIN_CLIENT_SECRET => "KEYCLOAK_ADMIN_CLIENT_SECRET"
    case ADMIN_LIVE_CHECK_TTL_SECONDS => "ADMIN_LIVE_CHECK_TTL_SECONDS"
    case DEV_PLAYGROUND_ENABLED => "DEV_PLAYGROUND_ENABLED"
    case DEV_PLAYGROUND_CLIENT_ID => "DEV_PLAYGROUND_CLIENT_ID"
    case KEYCLOAK_ADMIN => "KEYCLOAK_ADMIN"
    case KEYCLOAK_ADMIN_PASSWORD => "KEYCLOAK_ADMIN_PASSWORD"
    case KC_HOST_PORT => "KC_HOST_PORT"
    case KC_DB_USER => "KC_DB_USER"
    case KC_DB_PASSWORD => "KC_DB_PASSWORD"
    case KC_DB_NAME => "KC_DB_NAME"
    case SEED_USER_PASSWORD => "SEED_USER_PASSWORD"
  }

  function DbUrl(p: Project): seq<Piece> {
    [Fixed("postgres://"), Kept(NameOf(POSTGRES_USER), "postgres"), Fixed(":"),
     Kept(NameOf(POSTGRES_PASSWORD), "postgres"),
     Fixed("@localhost:" + FormatInt(p.postgresPort) + "/" + p.database + "?sslmode=disable")]
  }

  function ValueOf(v: Var, p: Project): seq<Piece> {
    match SourceOf(v, p)
    case FromProject(text) => [Fixed(text)]
    case FromFile(default) => [Kept(NameOf(v), default)]
    case Connection => DbUrl(p)
  }

  function LineOf(v: Var, p: Project): Line { Assign(NameOf(v), ValueOf(v, p)) }

  const COUNT := 41

  /** The order of the file. */
  function At(k: nat): Var
    requires k < COUNT
  {
    if k == 0 then KEYCLOAK_URL else if k == 1 then KEYCLOAK_REALM else
    if k == 2 then KEYCLOAK_CLIENT_ID else if k == 3 then ADMIN_CONSOLE_CLIENT_ID else
    if k == 4 then KEYCLOAK_JWKS_URL else if k == 5 then KEYCLOAK_ADMIN_BASE_URL else
    if k == 6 then POSTGRES_USER else if k == 7 then POSTGRES_PASSWORD else
    if k == 8 then POSTGRES_DB else if k == 9 then DB_URL else
    if k == 10 then DB_MIGRATE_ON_BOOT else if k == 11 then SECRETS_KEYRING else
    if k == 12 then SECRETS_KEY_CURRENT else if k == 13 then SECRETS_MASTER_KEY else
    if k == 14 then PORT else if k == 15 then API_HOST_PORT else
    if k == 16 then POSTGRES_HOST_PORT else if k == 17 then GIN_LOG_ENABLED else
    if k == 18 then GIN_ACCESS_LOG_ENABLED else if k == 19 then SHUTDOWN_TIMEOUT_SECONDS else
    if k == 20 then ADMIN_CONSOLE_ENABLED else if k == 21 then CORS_ALLOWED_ORIGINS else
    if k == 22 then KEYCLOAK_ALLOWED_CLIENT_IDS else if k == 23 then RATE_LIMIT_EDGE_RPS else
    if k == 24 then RATE_LIMIT_CREDENTIAL_RPS else if k == 25 then AUDIT_RETENTION_DAYS else
    if k == 26 then METRICS_ENABLED else if k == 27 then METRICS_TOKEN else
    if k == 28 then KEYCLOAK_CLIENT_SECRET else if k == 29 then KEYCLOAK_ADMIN_CLIENT_ID else
    if k == 30 then KEYCLOAK_ADMIN_CLIENT_SECRET else if k == 31 then ADMIN_LIVE_CHECK_TTL_SECONDS else
    if k == 32 then DEV_PLAYGROUND_ENABLED else if k == 33 then DEV_PLAYGROUND_CLIENT_ID else
    if k == 34 then KEYCLOAK_ADMIN else if k == 35 then KEYCLOAK_ADMIN_PASSWORD else
    if k == 36 then KC_HOST_PORT else if k == 37 then KC_DB_USER else
    if k == 38 then KC_DB_PASSWORD else if k == 39 then KC_DB_NAME else
    SEED_USER_PASSWORD
  }

  function Index(v: Var): nat {
    match v
    case KEYCLOAK_URL => 0 case KEYCLOAK_REALM => 1 case KEYCLOAK_CLIENT_ID => 2
    case ADMIN_CONSOLE_CLIENT_ID => 3 case KEYCLOAK_JWKS_URL => 4 case KEYCLOAK_ADMIN_BASE_URL => 5
    case POSTGRES_USER => 6 case POSTGRES_PASSWORD => 7 case POSTGRES_DB => 8
    case DB_URL => 9 case DB_MIGRATE_ON_BOOT => 10 case SECRETS_KEYRING => 11
    case SECRETS_KEY_CURRENT => 12 case SECRETS_MASTER_KEY => 13 case PORT => 14
    case API_HOST_PORT => 15 case POSTGRES_HOST_PORT => 16 case GIN_LOG_ENABLED => 17
    case GIN_ACCESS_LOG_ENABLED => 18 case SHUTDOWN_TIMEOUT_SECONDS => 19 case ADMIN_CONSOLE_ENABLED => 20
    case CORS_ALLOWED_ORIGINS => 21 case KEYCLOAK_ALLOWED_CLIENT_IDS => 22 case RATE_LIMIT_EDGE_RPS => 23
    case RATE_LIMIT_CREDENTIAL_RPS => 24 case AUDIT_RETENTION_DAYS => 25 case METRICS_ENABLED => 26
    case METRICS_TOKEN => 27 case KEYCLOAK_CLIENT_SECRET => 28 case KEYCLOAK_ADMIN_CLIENT_ID => 29
    case KEYCLOAK_ADMIN_CLIENT_SECRET => 30 case ADMIN_LIVE_CHECK_TTL_SECONDS => 31 case DEV_PLAYGROUND_ENABLED => 32
    case DEV_PLAYGROUND_CLIENT_ID => 33 case KEYCLOAK_ADMIN => 34 case KEYCLOAK_ADMIN_PASSWORD => 35
    case KC_HOST_PORT => 36 case KC_DB_USER => 37 case KC_DB_PASSWORD => 38
    case KC_DB_NAME => 39 case SEED_USER_PASSWORD => 40
  }

  /** Every variable's line, in the order of the file. */
  function Variables(p: Project): seq<Line> {
    seq(COUNT, i requires 0 <= i < COUNT => LineOf(At(i), p))
  }

  // ---------------------------------------------------------------------
  // The names are good and different
  // ---------------------------------------------------------------------

  /** The length of a name and its first and last letter tell it from the others. */
  function Slot(n: string): nat {
    if |n| == 4 then 14
    else if |n| == 6 then 9
    else if |n| == 10 then (if n[9] == 'R' then 37 else 39)
    else if |n| == 11 then 8
    else if |n| == 12 then (if n[11] == 'L' then 0 else 36)
    else if |n| == 13 then (if n[0] == 'P' then 6 else if n[0] == 'A' then 15 else 27)
    else if |n| == 14 then (if n[13] == 'M' then 1 else if n[13] == 'N' then 34 else 38)
    else if |n| == 15 then (if n[0] == 'S' then 11 else if n[0] == 'G' then 17 else 26)
    else if |n| == 17 then (if n[0] == 'K' then 4 else 7)
    else if |n| == 18 then
      (if n[0] == 'K' then 2 else if n[0] == 'D' then 10 else if n[17] == 'Y' then 13
       else if n[0] == 'P' then 16 else 40)
    else if |n| == 19 then (if n[0] == 'S' then 12 else 23)
    else if |n| == 20 then (if n[0] == 'C' then 21 else 25)
    else if |n| == 21 then 20
    else if |n| == 22 then (if n[0] == 'G' then 18 else if n[0] == 'K' then 28 else 32)
    else if |n| == 23 then (if n[0] == 'A' then 3 else if n[22] == 'L' then 5 else 35)
    else if |n| == 24 then (if n[0] == 'S' then 19 else if n[0] == 'K' then 29 else 33)
    else if |n| == 25 then 24
    else if |n| == 27 then 22
    else if |n| == 28 then (if n[0] == 'K' then 30 else 31)
    else 41
  }

  lemma Names0To3()
    ensures GoodName("KEYCLOAK_URL") && Slot("KEYCLOAK_URL") == 0
    ensures GoodName("KEYCLOAK_REALM") && Slot("KEYCLOAK_REALM") == 1
    ensures GoodName("KEYCLOAK_CLIENT_ID") && Slot("KEYCLOAK_CLIENT_ID") == 2
  {
  }

  lemma Names3To5()
    ensures GoodName("ADMIN_CONSOLE_CLIENT_ID") && Slot("ADMIN_CONSOLE_CLIENT_ID") == 3
    ensures GoodName("KEYCLOAK_JWKS_URL") && Slot("KEYCLOAK_JWKS_URL") == 4
  {
  }

  lemma Names5To8()
    ensures GoodName("KEYCLOAK_ADMIN_BASE_URL") && Slot("KEYCLOAK_ADMIN_BASE_URL") == 5
    ensures GoodName("POSTGRES_USER") && Slot("POSTGRES_USER") == 6
    ensures GoodName("POSTGRES_PASSWORD") && Slot("POSTGRES_PASSWORD") == 7
  {
  }

  lemma Names8To12()
    ensures GoodName("POSTGRES_DB") && Slot("POSTGRES_DB") == 8
    ensures GoodName("DB_URL") && Slot("DB_URL") == 9
    ensures GoodName("DB_MIGRATE_ON_BOOT") && Slot("DB_MIGRATE_ON_BOOT") == 10
    ensures GoodName("SECRETS_KEYRING") && Slot("SECRETS_KEYRING") == 11
  {
  }

  lemma Names12To16()
    ensures GoodName("SECRETS_KEY_CURRENT") && Slot("SECRETS_KEY_CURRENT") == 12
    ensures GoodName("SECRETS_MASTER_KEY") && Slot("SECRETS_MASTER_KEY") == 13
    ensures GoodName("PORT") && Slot("PORT") == 14
    ensures GoodName("API_HOST_PORT") && Slot("API_HOST_PORT") == 15
  {
  }

  lemma Names16To19()
    ensures GoodName("POSTGRES_HOST_PORT") && Slot("POSTGRES_HOST_PORT") == 16
    ensures GoodName("GIN_LOG_ENABLED") && Slot("GIN_LOG_ENABLED") == 17
    ensures GoodName("GIN_ACCESS_LOG_ENABLED") && Slot("GIN_ACCESS_LOG_ENABLED") == 18
  {
  }

  lemma Names19To21()
    ensures GoodName("SHUTDOWN_TIMEOUT_SECONDS") && Slot("SHUTDOWN_TIMEOUT_SECONDS") == 19
    ensures GoodName("ADMIN_CONSOLE_ENABLED") && Slot("ADMIN_CONSOLE_ENABLED") == 20
  {
  }

  lemma Names21To23()
    ensures GoodName("CORS_ALLOWED_ORIGINS") && Slot("CORS_ALLOWED_ORIGINS") == 21
    ensures GoodName("KEYCLOAK_ALLOWED_CLIENT_IDS") && Slot("KEYCLOAK_ALLOWED_CLIENT_IDS") == 22
  {
  }

  lemma Names23To25()
    ensures GoodName("RATE_LIMIT_EDGE_RPS") && Slot("RATE_LIMIT_EDGE_RPS") == 23
    ensures GoodName("RATE_LIMIT_CREDENTIAL_RPS") && Slot("RATE_LIMIT_CREDENTIAL_RPS") == 24
  {
  }

  lemma Names25To28()
    ensures GoodName("AUDIT_RETENTION_DAYS") && Slot("AUDIT_RETENTION_DAYS") == 25
    ensures GoodName("METRICS_ENABLED") && Slot("METRICS_ENABLED") == 26
    ensures GoodName("METRICS_TOKEN") && Slot("METRICS_TOKEN") == 27
  {
  }

  lemma Names28To30()
    ensures GoodName("KEYCLOAK_CLIENT_SECRET") && Slot("KEYCLOAK_CLIENT_SECRET") == 28
    ensures GoodName("KEYCLOAK_ADMIN_CLIENT_ID") && Slot("KEYCLOAK_ADMIN_CLIENT_ID") == 29
  {
  }

  lemma Names30To32()
    ensures GoodName("KEYCLOAK_ADMIN_CLIENT_SECRET") && Slot("KEYCLOAK_ADMIN_CLIENT_SECRET") == 30
    ensures GoodName("ADMIN_LIVE_CHECK_TTL_SECONDS") && Slot("ADMIN_LIVE_CHECK_TTL_SECONDS") == 31
  {
  }

  lemma Names32To34()
    ensures GoodName("DEV_PLAYGROUND_ENABLED") && Slot("DEV_PLAYGROUND_ENABLED") == 32
    ensures GoodName("DEV_PLAYGROUND_CLIENT_ID") && Slot("DEV_PLAYGROUND_CLIENT_ID") == 33
  {
  }

  lemma Names34To37()
    ensures GoodName("KEYCLOAK_ADMIN") && Slot("KEYCLOAK_ADMIN") == 34
    ensures GoodName("KEYCLOAK_ADMIN_PASSWORD") && Slot("KEYCLOAK_ADMIN_PASSWORD") == 35
    ensures GoodName("KC_HOST_PORT") && Slot("KC_HOST_PORT") == 36
  {
  }

  lemma Names37To41()
    ensures GoodName("KC_DB_USER") && Slot("KC_DB_USER") == 37
    ensures GoodName("KC_DB_PASSWORD") && Slot("KC_DB_PASSWORD") == 38
    ensures GoodName("KC_DB_NAME") && Slot("KC_DB_NAME") == 39
    ensures GoodName("SEED_USER_PASSWORD") && Slot("SEED_USER_PASSWORD") == 40
  {
  }

  lemma NamesAreGood(v: Var)
    ensures GoodName(NameOf(v)) && Slot(NameOf(v)) == Index(v) && Index(v) < COUNT
  {
    hide GoodName, Slot;
    Names0To3();
    Names3To5();
    Names5To8();
    Names8To12();
    Names12To16();
    Names16To19();
    Names19To21();
    Names21To23();
    Names23To25();
    Names25To28();
    Names28To30();
    Names30To32();
    Names32To34();
    Names34To37();
    Names37To41();
  }

  lemma PlaceOf(k: nat)
    requires k < COUNT
    ensures Index(At(k)) == k
  {
  }

  lemma EveryVariableHasAPlace(v: Var)
    ensures Index(v) < COUNT && At(Index(v)) == v
  {
    hide NameOf, SourceOf;
  }

  lemma OneLineJoin(a: string, b: string)
    requires OneLine(a) && OneLine(b)
    ensures OneLine(a + b)
  {
  }

  lemma NumberIsOneLine(n: int)
    ensures OneLine(FormatInt(n)) && Trimmed(FormatInt(n))
  {
    hide FormatInt, ParseInt;
    ParseOfFormat(n);
    var s := FormatInt(n);
    assert s[0] in s && s[|s| - 1] in s;
  }

  lemma UrlTexts()
    ensures OneLine("http://keycloak:8080") && OneLine("postgres://") && OneLine(":")
  {
  }

  lemma ConsoleUrlTexts()
    ensures OneLine("http://localhost:") && OneLine("http://keycloak:8080/realms/")
    ensures OneLine("/protocol/openid-connect/certs")
  {
  }

  lemma DbUrlTexts()
    ensures OneLine("@localhost:") && OneLine("/") && OneLine("?sslmode=disable")
  {
  }

  lemma ClientTexts()
    ensures OneLine(IDENTITY_ADMIN_CLIENT) && OneLine(PLAYGROUND_CLIENT)
    ensures OneLine("true") && OneLine("false") && OneLine("")
  {
  }

  predicate GoodDefault(d: string) { OneLine(d) && Trimmed(d) }

  lemma OperatorDefaults()
    ensures GoodDefault("") && GoodDefault("postgres") && GoodDefault("true") && GoodDefault("false")
    ensures GoodDefault("10") && GoodDefault("20") && GoodDefault("30") && GoodDefault("90")
    ensures GoodDefault("keycloak")
  {
  }

  lemma SecretDefaults()
    ensures GoodDefault(DefaultSecrets.adminPassword) && GoodDefault(DefaultSecrets.seedUserPassword)
  {
  }

  lemma ClientSecretDefault()
    ensures GoodDefault(DefaultSecrets.clientSecret)
  {
  }

  lemma AdminClientSecretDefault()
    ensures GoodDefault(DefaultSecrets.adminClientSecret)
  {
  }

  lemma DerivedTexts(p: Project)
    requires OneLineProject(p)
    ensures OneLine("http://localhost:" + FormatInt(p.keycloakPort))
    ensures OneLine("http://keycloak:8080/realms/" + p.realm + "/protocol/openid-connect/certs")
    ensures OneLine("@localhost:" + FormatInt(p.postgresPort) + "/" + p.database + "?sslmode=disable")
  {
    ConsoleUrlTexts();
    DbUrlTexts();
    NumberIsOneLine(p.keycloakPort);
    NumberIsOneLine(p.postgresPort);
    hide FormatInt, OneLine;
    OneLineJoin("http://localhost:", FormatInt(p.keycloakPort));
    OneLineJoin("http://keycloak:8080/realms/", p.realm);
    OneLineJoin("http://keycloak:8080/realms/" + p.realm, "/protocol/openid-connect/certs");
    OneLineJoin("@localhost:", FormatInt(p.postgresPort));
    OneLineJoin("@localhost:" + FormatInt(p.postgresPort), "/");
    OneLineJoin("@localhost:" + FormatInt(p.postgresPort) + "/", p.database);
    OneLineJoin("@localhost:" + FormatInt(p.postgresPort) + "/" + p.database, "?sslmode=disable");
  }

  predicate GoodSource(s: Source) {
    match s
    case FromProject(text) => OneLine(text)
    case FromFile(default) => GoodDefault(default)
    case Connection => true
  }

  lemma FirstSourcesAreGood(v: Var, p: Project)
    requires OneLineProject(p) && Index(v) < 20
    ensures GoodSource(SourceOf(v, p))
  {
    DerivedTexts(p);
    UrlTexts();
    OperatorDefaults();
    NumberIsOneLine(p.apiPort);
    NumberIsOneLine(p.postgresPort);
    hide OneLine, FormatInt, GoodDefault;
  }

  lemma LastSourcesAreGood(v: Var, p: Project)
    requires OneLineProject(p) && Index(v) >= 20
    ensures GoodSource(SourceOf(v, p))
  {
    ClientTexts();
    OperatorDefaults();
    SecretDefaults();
    ClientSecretDefault();
    AdminClientSecretDefault();
    NumberIsOneLine(p.keycloakPort);
    hide OneLine, FormatInt, GoodDefault;
  }

  // ---------------------------------------------------------------------
  // Any file with these variables is a good layout
  // ---------------------------------------------------------------------

  lemma ValueIsGood(v: Var, p: Project)
    requires OneLineProject(p)
    ensures GoodLine(LineOf(v, p))
  {
    hide SourceOf, NameOf, GoodName, Slot, OneLine, Trimmed, FormatInt, Index, OneLineProject;
    if Index(v) < 20 { FirstSourcesAreGood(v, p); } else { LastSourcesAreGood(v, p); }
    NamesAreGood(v);
    DerivedTexts(p);
    UrlTexts();
    OperatorDefaults();
  }

  lemma UrlSources(v: Var, p: Project)
    ensures SourceOf(v, p).Connection? <==> v == DB_URL
    ensures SourceOf(POSTGRES_USER, p) == SourceOf(POSTGRES_PASSWORD, p) == FromFile("postgres")
  {
  }

  lemma KeptInUrl(p: Project, n: string, d: string)
    requires Kept(n, d) in DbUrl(p)
    ensures d == "postgres" && (n == NameOf(POSTGRES_USER) || n == NameOf(POSTGRES_PASSWORD))
  {
    hide NameOf, FormatInt;
  }

  /** A value asked of the file is written under its own name. */
  lemma KeptIsWrittenBack(v: Var, p: Project, n: string, d: string)
    requires Kept(n, d) in ValueOf(v, p)
    ensures exists u :: n == NameOf(u) && ValueOf(u, p) == [Kept(n, d)]
  {
    hide SourceOf, NameOf, DbUrl;
    UrlSources(v, p);
    if v == DB_URL {
      KeptInUrl(p, n, d);
      var u := if n == NameOf(POSTGRES_USER) then POSTGRES_USER else POSTGRES_PASSWORD;
      assert ValueOf(u, p) == [Kept(n, d)];
    } else {
      assert ValueOf(v, p) == [Kept(n, d)];
    }
  }

  lemma VariablesHold(p: Project)
    requires OneLineProject(p)
    ensures GoodLayout(Variables(p))
  {
    hide At, Index, NameOf, Slot, ValueOf, GoodName, GoodPiece, OneLineProject;
    var lines := Variables(p);
    forall i, j | 0 <= i < j < |lines| ensures lines[i].name != lines[j].name {
      NamesAreGood(At(i));
      NamesAreGood(At(j));
      PlaceOf(i);
      PlaceOf(j);
    }
    forall l | l in lines ensures GoodLine(l) {
      var i :| 0 <= i < |lines| && lines[i] == l;
      ValueIsGood(At(i), p);
    }
    forall l, n, d | l in lines && l.Assign? && Kept(n, d) in l.value ensures Owns(lines, n, d) {
      var i :| 0 <= i < |lines| && lines[i] == l;
      KeptIsWrittenBack(At(i), p, n, d);
      var u :| n == NameOf(u) && ValueOf(u, p) == [Kept(n, d)];
      EveryVariableHasAPlace(u);
      assert lines[Index(u)] == LineOf(u, p);
    }
  }

  // ---------------------------------------------------------------------
  // With comments, in either form of the file
  // ---------------------------------------------------------------------

  function Assigns(lines: seq<Line>): seq<Line> {
    if lines == [] then []
    else if lines[0].Assign? then [lines[0]] + Assigns(lines[1..]) else Assigns(lines[1..])
  }

  /** The file holds these variables in this order; comments and blank lines may
      stand anywhere between them. */
  predicate Lays(lines: seq<Line>, p: Project) {
    Assigns(lines) == Variables(p) && forall l :: l in lines && l.Note? ==> OneLine(l.text)
  }

  ghost predicate NewName(x: Line, rest: seq<Line>) {
    forall l :: l in rest && l.Assign? && x.Assign? ==> l.name != x.name
  }

  lemma UniqueCons(x: Line, rest: seq<Line>)
    ensures UniqueNames([x] + rest) <==> UniqueNames(rest) && NewName(x, rest)
  {
    var all := [x] + rest;
    if UniqueNames(all) {
      forall i, j | 0 <= i < j < |rest| && rest[i].Assign? && rest[j].Assign? ensures rest[i].name != rest[j].name {
        assert all[i + 1] == rest[i] && all[j + 1] == rest[j];
      }
      forall l | l in rest && l.Assign? && x.Assign? ensures l.name != x.name {
        var j :| 0 <= j < |rest| && rest[j] == l;
        assert all[0] == x && all[j + 1] == l;
      }
    }
    if UniqueNames(rest) && NewName(x, rest) {
      forall i, j | 0 <= i < j < |all| && all[i].Assign? && all[j].Assign? ensures all[i].name != all[j].name {
        assert all[j] == rest[j - 1] && all[j] in rest;
        if i > 0 { assert all[i] == rest[i - 1]; }
      }
    }
  }

  lemma AssignsMore(x: Line, rest: seq<Line>)
    ensures Assigns([x] + rest) == if x.Assign? then [x] + Assigns(rest) else Assigns(rest)
    ensures Assigns([]) == []
  {
    assert ([x] + rest)[1..] == rest;
  }

  lemma {:induction false} AssignsKeepOrder(lines: seq<Line>)
    ensures forall l :: l in Assigns(lines) <==> l in lines && l.Assign?
    ensures UniqueNames(Assigns(lines)) ==> UniqueNames(lines)
  {
    if lines != [] {
      hide Assigns, UniqueNames;
      var x, rest := lines[0], lines[1..];
      AssignsKeepOrder(rest);
      AssignsMore(x, rest);
      assert lines == [x] + rest;
      UniqueCons(x, rest);
      UniqueCons(x, Assigns(rest));
    }
  }

  /** Whatever project.json says, on one line each, the file is a good layout: its
      forty-one names are distinct and every kept value is written back. */
  lemma LayoutHolds(lines: seq<Line>, p: Project)
    requires OneLineProject(p) && Lays(lines, p)
    ensures GoodLayout(lines)
  {
    hide Variables, UniqueNames, OneLineProject;
    VariablesHold(p);
    AssignsKeepOrder(lines);
    forall l, n, d | l in lines && l.Assign? && Kept(n, d) in l.value ensures Owns(lines, n, d) {
      assert l in Assigns(lines);
      assert Owns(Assigns(lines), n, d);
    }
    forall l | l in lines ensures GoodLine(l) {
      if l.Assign? { assert l in Assigns(lines); }
    }
  }

  // ---------------------------------------------------------------------
  // What an operator can rely on
  // ---------------------------------------------------------------------

  /** Whatever the file held: a second run changes nothing, and every variable the
      operator owns keeps its non-empty value. */
  lemma OperatorCanRegenerate(lines: seq<Line>, p: Project, file: Option<string>)
    requires OneLineProject(p) && Lays(lines, p)
    ensures var once := Regenerate(lines, file); Regenerate(lines, Some(once)) == once
    ensures forall v :: SourceOf(v, p).FromFile? ==>
              var n := NameOf(v);
              var after := Read(Some(Regenerate(lines, file)));
              && n in after && after[n] == Keep(Read(file), n, SourceOf(v, p).default)
              && (n in Read(file) && Read(file)[n] != "" ==> after[n] == Read(file)[n])
  {
    hide Regenerate, Read, OneLineProject, Lays, NameOf, SourceOf, GoodLayout, Keep;
    LayoutHolds(lines, p);
    RegenerationIsAFixpoint(lines, file);
    forall v | SourceOf(v, p).FromFile?
      ensures var n := NameOf(v);
              var after := Read(Some(Regenerate(lines, file)));
              && n in after && after[n] == Keep(Read(file), n, SourceOf(v, p).default)
              && (n in Read(file) && Read(file)[n] != "" ==> after[n] == Read(file)[n])
    {
      VariableIsThere(lines, p, v);
      OperatorValuesSurvive(lines, file, NameOf(v), SourceOf(v, p).default);
    }
  }

  lemma VariableIsThere(lines: seq<Line>, p: Project, v: Var)
    requires Lays(lines, p)
    ensures LineOf(v, p) in lines
  {
    hide LineOf, At, Index;
    EveryVariableHasAPlace(v);
    AssignsKeepOrder(lines);
    assert Variables(p)[Index(v)] == LineOf(v, p);
  }

  /** The credentials read before a regeneration are the ones read after it, except
      that the admin client's is written empty while identity management is off, so
      a value set for it falls back to the placeholder. */
  lemma CredentialsSurvive(lines: seq<Line>, p: Project, file: Option<string>)
    requires OneLineProject(p) && Lays(lines, p)
    ensures var before, after := SecretsIn(Read(file)), SecretsIn(Read(Some(Regenerate(lines, file))));
            after == if p.identityManagement then before
                     else before.(adminClientSecret := DefaultSecrets.adminClientSecret)
  {
    SecretSources(p);
    hide Regenerate, Read, OneLineProject, NameOf, SourceOf, Lays, Keep;
    SameCredential(lines, p, file, KEYCLOAK_ADMIN_PASSWORD);
    SameCredential(lines, p, file, KEYCLOAK_CLIENT_SECRET);
    SameCredential(lines, p, file, SEED_USER_PASSWORD);
    if p.identityManagement {
      SameCredential(lines, p, file, KEYCLOAK_ADMIN_CLIENT_SECRET);
    } else {
      WrittenEmpty(lines, p, file, KEYCLOAK_ADMIN_CLIENT_SECRET, DefaultSecrets.adminClientSecret);
    }
  }

  lemma SameCredential(lines: seq<Line>, p: Project, file: Option<string>, v: Var)
    requires OneLineProject(p) && Lays(lines, p) && SourceOf(v, p).FromFile?
    ensures var d := SourceOf(v, p).default;
            Keep(Read(Some(Regenerate(lines, file))), NameOf(v), d) == Keep(Read(file), NameOf(v), d)
  {
    hide Regenerate, Read, OneLineProject, NameOf, SourceOf, Lays, GoodLayout, Keep;
    LayoutHolds(lines, p);
    VariableIsThere(lines, p, v);
    OperatorValuesSurvive(lines, file, NameOf(v), SourceOf(v, p).default);
    KeepsAgain(Read(file), Read(Some(Regenerate(lines, file))), NameOf(v), SourceOf(v, p).default);
  }

  lemma WrittenEmpty(lines: seq<Line>, p: Project, file: Option<string>, v: Var, d: string)
    requires OneLineProject(p) && Lays(lines, p) && SourceOf(v, p) == FromProject("")
    ensures Keep(Read(Some(Regenerate(lines, file))), NameOf(v), d) == d
  {
    hide Regenerate, Read, OneLineProject, NameOf, SourceOf, Lays, GoodLayout;
    LayoutHolds(lines, p);
    VariableIsThere(lines, p, v);
    DerivedValuesWin(lines, file, NameOf(v), "");
    TrimTrims("");
  }

  /** The same project with nothing in its texts. */
  function Silent(p: Project): Project {
    p.(realm := "", clientId := "", adminUsername := "", database := "", allowedClientIds := "")
  }

  lemma DefaultsAreGood(v: Var, p: Project)
    requires SourceOf(v, p).FromFile?
    ensures GoodDefault(SourceOf(v, p).default)
  {
    SameDefault(v, p);
    hide SourceOf, GoodDefault, Index;
    if Index(v) < 20 { FirstSourcesAreGood(v, Silent(p)); } else { LastSourcesAreGood(v, Silent(p)); }
  }

  lemma SameDefault(v: Var, p: Project)
    requires SourceOf(v, p).FromFile?
    ensures OneLineProject(Silent(p)) && SourceOf(v, Silent(p)) == SourceOf(v, p)
  {
    hide FormatInt;
  }

  /** What stands below the first line l. */
  function Below(lines: seq<Line>, l: Line): seq<Line> {
    if lines == [] then [] else if lines[0] == l then lines[1..] else Below(lines[1..], l)
  }

  function Above(lines: seq<Line>, l: Line): seq<Line> {
    if lines == [] || lines[0] == l then [] else [lines[0]] + Above(lines[1..], l)
  }

  lemma {:induction false} AboveAndBelow(lines: seq<Line>, l: Line)
    requires l in lines
    ensures lines == Above(lines, l) + ([l] + Below(lines, l))
  {
    if lines[0] != l { AboveAndBelow(lines[1..], l); }
  }

  lemma {:induction false} AssignsAppend(a: seq<Line>, b: seq<Line>)
    ensures Assigns(a + b) == Assigns(a) + Assigns(b)
  {
    hide Assigns;
    if a == [] {
      AssignsMore(Gap, []);
      assert a + b == b;
    } else {
      AssignsAppend(a[1..], b);
      AssignsMore(a[0], a[1..]);
      AssignsMore(a[0], a[1..] + b);
      assert a == [a[0]] + a[1..];
      assert a + b == [a[0]] + (a[1..] + b);
    }
  }

  /** Whatever project.json says, line breaks and all, exactly when the operator's value of
      a variable survives a regeneration: if and only if the lines below its own, read as a
      file, do not say something else about it. */
  lemma OwnedValueSurvivesIff(lines: seq<Line>, p: Project, v: Var, file: Option<string>)
    requires Lays(lines, p) && SourceOf(v, p).FromFile?
    ensures LineOf(v, p) in lines
    ensures var n, kept := NameOf(v), Keep(Read(file), NameOf(v), SourceOf(v, p).default);
            var read := Read(Some(Regenerate(lines, file)));
            var below := Says(Render(Below(lines, LineOf(v, p)), Read(file)));
            && n in read && read[n] == (if n in below then below[n] else kept)
            && (read[n] == kept <==> (n in below ==> below[n] == kept))
  {
    hide Lays, SourceOf, NameOf, GoodName, Slot, Says, Render, Read, Keep, Clean, Index, At, OneLine, Trimmed,
         Variables, Above, Below, Assigns;
    OwnedLine(p, v);
    ReadIsClean(file);
    VariableIsThere(lines, p, v);
    var l := LineOf(v, p);
    AboveAndBelow(lines, l);
    OperatorValueSurvivesIff(Above(lines, l), NameOf(v), SourceOf(v, p).default, Below(lines, l), Read(file));
    SaidIs(Render(lines, Read(file)));
  }

  lemma OwnedLine(p: Project, v: Var)
    requires SourceOf(v, p).FromFile?
    ensures Index(v) < COUNT == |Variables(p)| && GoodName(NameOf(v))
    ensures Variables(p)[Index(v)] == Assign(NameOf(v), [Kept(NameOf(v), SourceOf(v, p).default)])
    ensures OneLine(SourceOf(v, p).default) && Trimmed(SourceOf(v, p).default)
  {
    hide SourceOf, NameOf, GoodName, Slot, Index, At, OneLine, Trimmed;
    DefaultsAreGood(v, p);
    NamesAreGood(v);
    EveryVariableHasAPlace(v);
  }

  /** The lines around the client ids are printable whatever the client ids hold. */
  lemma AroundClientIds(lines: seq<Line>, p: Project)
    requires OneLineProject(p.(allowedClientIds := "")) && Lays(lines, p)
    ensures var l := Assign(NameOf(KEYCLOAK_ALLOWED_CLIENT_IDS), [Fixed(p.allowedClientIds)]);
            && lines == Above(lines, l) + ([l] + Below(lines, l))
            && Assigns(Above(lines, l)) == Variables(p)[..22] && Assigns(Below(lines, l)) == Variables(p)[23..]
            && forall x :: x in Above(lines, l) + Below(lines, l) ==> GoodLine(x)
  {
    var l := LineOf(KEYCLOAK_ALLOWED_CLIENT_IDS, p);
    assert l == Assign(NameOf(KEYCLOAK_ALLOWED_CLIENT_IDS), [Fixed(p.allowedClientIds)]);
    assert At(22) == KEYCLOAK_ALLOWED_CLIENT_IDS;
    hide NameOf, OneLineProject, GoodLine, At, Index, LineOf, Variables, Above, Below, Assigns;
    VariableIsThere(lines, p, KEYCLOAK_ALLOWED_CLIENT_IDS);
    AboveAndBelow(lines, l);
    var above, below := Above(lines, l), Below(lines, l);
    AssignsAppend(above, [l] + below);
    AssignsMore(l, below);
    ClientIdsStandOnce(p, Assigns(above), Assigns(below));
    AssignsKeepOrder(above);
    AssignsKeepOrder(below);
    forall x | x in above + below ensures GoodLine(x) {
      if x.Assign? {
        assert x in Assigns(above) + Assigns(below);
        OtherLinesAreGood(p, p.(allowedClientIds := ""), 22, x);
      } else {
        assert x in lines;
        CommentsArePrintable(x);
      }
    }
  }

  lemma CommentsArePrintable(x: Line)
    requires !x.Assign? && (x.Note? ==> OneLine(x.text))
    ensures GoodLine(x)
  {
  }

  lemma ClientIdsStandOnce(p: Project, above: seq<Line>, below: seq<Line>)
    requires Variables(p) == above + ([LineOf(KEYCLOAK_ALLOWED_CLIENT_IDS, p)] + below)
    ensures above == Variables(p)[..22] && below == Variables(p)[23..]
  {
    assert At(22) == KEYCLOAK_ALLOWED_CLIENT_IDS;
    hide NameOf, At, Index, ValueOf;
    var i := |above|;
    assert Variables(p)[i] == LineOf(At(22), p) && Variables(p)[i].name == NameOf(At(i));
    if i < 22 { DifferentNames(i, 22); }
    if i > 22 { DifferentNames(22, i); }
  }

  /** With the other texts on one line each, exactly when the operator's keyring survives
      client ids of any kind: if and only if their further lines, read as a file, do not
      say something else about it. */
  lemma KeyringSurvivesClientIdsIff(lines: seq<Line>, p: Project, file: Option<string>)
    requires OneLineProject(p.(allowedClientIds := "")) && Lays(lines, p)
    ensures var n := NameOf(SECRETS_KEYRING);
            var kept := Keep(Read(file), n, "");
            var read := Read(Some(Regenerate(lines, file)));
            var stray := ReadLines(Split(p.allowedClientIds, '\n')[1..]);
            n in read && (read[n] == kept <==> (n in stray ==> stray[n] == kept))
  {
    hide NameOf, GoodName, Slot, GoodLine, Says, Render, Read, Keep, Clean, Index, At, OneLineProject, ValueOf,
         ReadLines, Split, Variables, UniqueNames, Lays, Assigns, Above, Below;
    AroundClientIds(lines, p);
    NamesAreGood(KEYCLOAK_ALLOWED_CLIENT_IDS);
    ReadIsClean(file);
    var b, n := NameOf(KEYCLOAK_ALLOWED_CLIENT_IDS), NameOf(SECRETS_KEYRING);
    var l := Assign(b, [Fixed(p.allowedClientIds)]);
    KeyringLine(p, Above(lines, l), Below(lines, l));
    DerivedTextSparesIff(Above(lines, l), b, p.allowedClientIds, Below(lines, l), n, "", Read(file));
    SaidIs(Render(lines, Read(file)));
  }

  /** The keyring stands above the client ids and nowhere below. */
  lemma KeyringLine(p: Project, above: seq<Line>, below: seq<Line>)
    requires Assigns(above) == Variables(p)[..22] && Assigns(below) == Variables(p)[23..]
    ensures Owns(above, NameOf(SECRETS_KEYRING), "") && UniqueNames(above)
    ensures NameOf(KEYCLOAK_ALLOWED_CLIENT_IDS) != NameOf(SECRETS_KEYRING)
    ensures forall l :: l in below && l.Assign? ==> l.name != NameOf(SECRETS_KEYRING)
  {
    assert At(11) == SECRETS_KEYRING && At(22) == KEYCLOAK_ALLOWED_CLIENT_IDS;
    assert ValueOf(SECRETS_KEYRING, p) == [Kept(NameOf(SECRETS_KEYRING), "")];
    hide NameOf, Index, At, ValueOf, Assigns, UniqueNames;
    NamesStayDistinct(p, 22);
    AssignsKeepOrder(above);
    AssignsKeepOrder(below);
    assert Assigns(above)[11] == LineOf(SECRETS_KEYRING, p);
    DifferentNames(11, 22);
    forall l | l in below && l.Assign? ensures l.name != NameOf(SECRETS_KEYRING) {
      assert l in Assigns(below);
      var i :| 22 < i < COUNT && Variables(p)[i] == l;
      DifferentNames(11, i);
    }
  }

  lemma NamesStayDistinct(p: Project, k: nat)
    requires k <= COUNT
    ensures UniqueNames(Variables(p)[..k])
  {
    hide NameOf, Index, At, ValueOf;
    forall i, j | 0 <= i < j < k ensures Variables(p)[i].name != Variables(p)[j].name { DifferentNames(i, j); }
  }

  lemma DifferentNames(i: nat, j: nat)
    requires i < j < COUNT
    ensures NameOf(At(i)) != NameOf(At(j))
  {
    hide NameOf, Index, At, Slot, GoodName;
    NamesAreGood(At(i));
    NamesAreGood(At(j));
    PlaceOf(i);
    PlaceOf(j);
  }

  /** The family that shows it: a break in the client ids followed by an entry for
      SECRETS_KEYRING replaces what the operator had. */
  lemma ClientIdsOverrideTheKeyring(lines: seq<Line>, p: Project, x: string, y: string, file: Option<string>)
    requires OneLineProject(p.(allowedClientIds := "")) && Lays(lines, p) && OneLine(x) && OneLine(y)
    requires p.allowedClientIds == x + ['\n'] + (NameOf(SECRETS_KEYRING) + ['='] + y)
    ensures var read := Read(Some(Regenerate(lines, file)));
            NameOf(SECRETS_KEYRING) in read && read[NameOf(SECRETS_KEYRING)] == Trim(y)
  {
    hide NameOf, GoodName, Slot, GoodLine, Says, Render, Read, Clean, Index, At, OneLineProject, ValueOf,
         Variables, UniqueNames, Trim, OneLine, Lays, Assigns, Above, Below;
    AroundClientIds(lines, p);
    NamesAreGood(KEYCLOAK_ALLOWED_CLIENT_IDS);
    NamesAreGood(SECRETS_KEYRING);
    ReadIsClean(file);
    var b, n := NameOf(KEYCLOAK_ALLOWED_CLIENT_IDS), NameOf(SECRETS_KEYRING);
    var l := Assign(b, [Fixed(p.allowedClientIds)]);
    KeyringLine(p, Above(lines, l), Below(lines, l));
    LineBreakOverridesOperator(Above(lines, l), b, x, n, y, Below(lines, l), Read(file));
    SaidIs(Render(lines, Read(file)));
  }

  lemma OtherLinesAreGood(p: Project, q: Project, k: nat, l: Line)
    requires OneLineProject(q) && q == p.(allowedClientIds := q.allowedClientIds)
    requires k < COUNT && At(k) == KEYCLOAK_ALLOWED_CLIENT_IDS
    requires l in Variables(p)[..k] + Variables(p)[k + 1..]
    ensures GoodLine(l)
  {
    hide OneLineProject, GoodLine, LineOf, At, Index;
    var lines := Variables(p);
    var i :| 0 <= i < |lines| && i != k && lines[i] == l;
    PlaceOf(i);
    PlaceOf(k);
    SameOtherLine(p, q, At(i));
    ValueIsGood(At(i), q);
  }

  lemma SameOtherLine(p: Project, q: Project, v: Var)
    requires q == p.(allowedClientIds := q.allowedClientIds) && v != KEYCLOAK_ALLOWED_CLIENT_IDS
    ensures LineOf(v, p) == LineOf(v, q)
  {
    hide SourceOf, NameOf, FormatInt, DbUrl;
    SameOtherSource(p, q, v);
    SameUrl(p, q);
  }

  lemma SameUrl(p: Project, q: Project)
    requires p.postgresPort == q.postgresPort && p.database == q.database
    ensures DbUrl(p) == DbUrl(q)
  {
    hide NameOf, FormatInt;
  }

  lemma SameOtherSource(p: Project, q: Project, v: Var)
    requires q == p.(allowedClientIds := q.allowedClientIds) && v != KEYCLOAK_ALLOWED_CLIENT_IDS
    ensures SourceOf(v, p) == SourceOf(v, q)
  {
    hide FormatInt;
  }

  /** After a regeneration the file says this text under the variable's name. */
  ghost predicate SaysOf(env: Env, v: Var, text: string) { NameOf(v) in env && env[NameOf(v)] == text }

  lemma TextSources(p: Project)
    ensures SourceOf(KEYCLOAK_REALM, p) == FromProject(p.realm)
    ensures SourceOf(KEYCLOAK_CLIENT_ID, p) == FromProject(p.clientId)
    ensures SourceOf(POSTGRES_DB, p) == FromProject(p.database)
    ensures SourceOf(KEYCLOAK_ALLOWED_CLIENT_IDS, p) == FromProject(p.allowedClientIds)
    ensures SourceOf(KEYCLOAK_ADMIN, p) == FromProject(p.adminUsername)
  {
    hide FormatInt;
  }

  lemma PortSources(p: Project)
    ensures SourceOf(KEYCLOAK_URL, p) == FromProject("http://localhost:" + FormatInt(p.keycloakPort))
    ensures SourceOf(PORT, p) == FromProject(FormatInt(p.apiPort))
    ensures SourceOf(KC_HOST_PORT, p) == FromProject(FormatInt(p.keycloakPort))
  {
    hide FormatInt;
  }

  lemma AddressSourcesOfKeycloak(p: Project)
    ensures SourceOf(KEYCLOAK_JWKS_URL, p) ==
            FromProject("http://keycloak:8080/realms/" + p.realm + "/protocol/openid-connect/certs")
    ensures SourceOf(KEYCLOAK_ADMIN_BASE_URL, p) == FromProject("http://keycloak:8080")
    ensures SourceOf(DEV_PLAYGROUND_CLIENT_ID, p) == FromProject("saas-dev-playground")
  {
    hide FormatInt;
  }

  lemma FlagSources(p: Project)
    ensures SourceOf(KEYCLOAK_ADMIN_CLIENT_ID, p) ==
            FromProject(if p.identityManagement then "saas-backend-admin" else "")
    ensures SourceOf(DEV_PLAYGROUND_ENABLED, p) == FromProject(if p.devPlayground then "true" else "false")
  {
    hide FormatInt;
  }

  lemma DerivedIs(lines: seq<Line>, p: Project, file: Option<string>, v: Var, text: string)
    requires GoodLayout(lines) && Lays(lines, p) && SourceOf(v, p) == FromProject(text)
    ensures SaysOf(Read(Some(Regenerate(lines, file))), v, Trim(text))
  {
    hide Regenerate, Read, NameOf, Lays, GoodLayout, Trim, SourceOf;
    VariableIsThere(lines, p, v);
    DerivedValuesWin(lines, file, NameOf(v), text);
  }

  /** What project.json says reaches the file whatever the file said before. */
  lemma ProjectReachesTheFile(lines: seq<Line>, p: Project, file: Option<string>)
    requires OneLineProject(p) && Lays(lines, p)
    ensures var env := Read(Some(Regenerate(lines, file)));
            && SaysOf(env, KEYCLOAK_REALM, Trim(p.realm)) && SaysOf(env, KEYCLOAK_CLIENT_ID, Trim(p.clientId))
            && SaysOf(env, POSTGRES_DB, Trim(p.database)) && SaysOf(env, KEYCLOAK_ADMIN, Trim(p.adminUsername))
            && SaysOf(env, KEYCLOAK_ALLOWED_CLIENT_IDS, Trim(p.allowedClientIds))
            && SaysOf(env, PORT, Trim(FormatInt(p.apiPort)))
            && SaysOf(env, KC_HOST_PORT, Trim(FormatInt(p.keycloakPort)))
            && SaysOf(env, KEYCLOAK_URL, Trim("http://localhost:" + FormatInt(p.keycloakPort)))
            && SaysOf(env, KEYCLOAK_ADMIN_CLIENT_ID, Trim(if p.identityManagement then "saas-backend-admin" else ""))
            && SaysOf(env, DEV_PLAYGROUND_ENABLED, Trim(if p.devPlayground then "true" else "false"))
            && SaysOf(env, KEYCLOAK_JWKS_URL,
                      Trim("http://keycloak:8080/realms/" + p.realm + "/protocol/openid-connect/certs"))
            && SaysOf(env, KEYCLOAK_ADMIN_BASE_URL, Trim("http://keycloak:8080"))
            && SaysOf(env, DEV_PLAYGROUND_CLIENT_ID, Trim("saas-dev-playground"))
  {
    hide Regenerate, Read, NameOf, Lays, GoodLayout, Trim, SourceOf, SaysOf, FormatInt, OneLineProject;
    LayoutHolds(lines, p);
    TextSources(p);
    PortSources(p);
    FlagSources(p);
    AddressSourcesOfKeycloak(p);
    DerivedIs(lines, p, file, KEYCLOAK_JWKS_URL,
              "http://keycloak:8080/realms/" + p.realm + "/protocol/openid-connect/certs");
    DerivedIs(lines, p, file, KEYCLOAK_ADMIN_BASE_URL, "http://keycloak:8080");
    DerivedIs(lines, p, file, DEV_PLAYGROUND_CLIENT_ID, "saas-dev-playground");
    DerivedIs(lines, p, file, KEYCLOAK_REALM, p.realm);
    DerivedIs(lines, p, file, KEYCLOAK_CLIENT_ID, p.clientId);
    DerivedIs(lines, p, file, POSTGRES_DB, p.database);
    DerivedIs(lines, p, file, KEYCLOAK_ADMIN, p.adminUsername);
    DerivedIs(lines, p, file, KEYCLOAK_ALLOWED_CLIENT_IDS, p.allowedClientIds);
    DerivedIs(lines, p, file, PORT, FormatInt(p.apiPort));
    DerivedIs(lines, p, file, KC_HOST_PORT, FormatInt(p.keycloakPort));
    DerivedIs(lines, p, file, KEYCLOAK_URL, "http://localhost:" + FormatInt(p.keycloakPort));
    DerivedIs(lines, p, file, KEYCLOAK_ADMIN_CLIENT_ID, if p.identityManagement then "saas-backend-admin" else "");
    DerivedIs(lines, p, file, DEV_PLAYGROUND_ENABLED, if p.devPlayground then "true" else "false");
  }

  // ---------------------------------------------------------------------
  // The database address
  // ---------------------------------------------------------------------

  function Address(user: string, password: string, port: string, database: string): string {
    "postgres://" + (user + (":" + (password + ("@localhost:" + port + "/" + database + "?sslmode=disable"))))
  }

  lemma AddressText(p: Project, env: Env)
    ensures ValueText(ValueOf(DB_URL, p), env) ==
            Address(Keep(env, NameOf(POSTGRES_USER), "postgres"), Keep(env, NameOf(POSTGRES_PASSWORD), "postgres"),
                    FormatInt(p.postgresPort), p.database)
  {
    UrlSources(DB_URL, p);
    hide NameOf, Keep, FormatInt, SourceOf;
    var last := Fixed("@localhost:" + FormatInt(p.postgresPort) + "/" + p.database + "?sslmode=disable");
    var user, password := Kept(NameOf(POSTGRES_USER), "postgres"), Kept(NameOf(POSTGRES_PASSWORD), "postgres");
    TextOfMore(last, [], env);
    TextOfMore(password, [last], env);
    TextOfMore(Fixed(":"), [password, last], env);
    TextOfMore(user, [Fixed(":"), password, last], env);
    TextOfMore(Fixed("postgres://"), [user, Fixed(":"), password, last], env);
    hide ValueText;
    assert [last] + [] == [last] && [password] + [last] == [password, last];
    assert [Fixed(":")] + [password, last] == [Fixed(":"), password, last];
    assert [user] + [Fixed(":"), password, last] == [user, Fixed(":"), password, last];
    assert [Fixed("postgres://")] + [user, Fixed(":"), password, last] == DbUrl(p);
  }

  lemma TextOfMore(x: Piece, rest: seq<Piece>, env: Env)
    ensures ValueText([x] + rest, env) == PieceText(x, env) + ValueText(rest, env)
    ensures ValueText([], env) == ""
  {
    assert ([x] + rest)[1..] == rest;
  }

  lemma AddressIsTrimmed(user: string, password: string, port: string, database: string)
    ensures Trim(Address(user, password, port, database)) == Address(user, password, port, database)
  {
    var s := Address(user, password, port, database);
    assert s[0] == 'p' && s[|s| - 1] == 'e';
    TrimTrims(s);
    hide Trim;
  }

  lemma AddressParts(user: string, password: string, port: string, database: string)
    ensures Address(user, password, port, database) ==
            ("postgres://" + user + ":" + password + "@localhost:") + port + ("/" + database + "?sslmode=disable")
  {
  }

  lemma SameMiddle(before: string, a: string, b: string, after: string)
    ensures before + a + after == before + b + after <==> a == b
  {
    var x, y := before + a + after, before + b + after;
    if x == y {
      assert |a| == |b|;
      assert a == x[|before|..|before| + |a|] && b == y[|before|..|before| + |b|];
    }
  }

  lemma AddressHasOnePort(user: string, password: string, port: string, other: string, database: string)
    ensures Address(user, password, port, database) == Address(user, password, other, database) <==> port == other
  {
    AddressParts(user, password, port, database);
    AddressParts(user, password, other, database);
    hide Address;
    SameMiddle("postgres://" + user + ":" + password + "@localhost:", port, other, "/" + database + "?sslmode=disable");
  }

  /** A regenerated file's DB_URL is put together from the user, the password and the
      database it also holds, but from project.json's port: it agrees with the file's own
      POSTGRES_HOST_PORT if and only if the operator has not set another one. */
  lemma DatabaseAddressAgreesIff(lines: seq<Line>, p: Project, file: Option<string>)
    requires OneLineProject(p) && Lays(lines, p) && Trimmed(p.database)
    ensures var env := Read(Some(Regenerate(lines, file)));
            var (url, user, password) := (NameOf(DB_URL), NameOf(POSTGRES_USER), NameOf(POSTGRES_PASSWORD));
            var (port, db) := (NameOf(POSTGRES_HOST_PORT), NameOf(POSTGRES_DB));
            && url in env && user in env && password in env && port in env && db in env
            && env[url] == Address(env[user], env[password], FormatInt(p.postgresPort), env[db])
            && (env[url] == Address(env[user], env[password], env[port], env[db]) <==>
                  port !in Read(file) || Read(file)[port] in ["", FormatInt(p.postgresPort)])
  {
    hide Regenerate, Read, OneLineProject, NameOf, Lays, GoodLayout, Keep, FormatInt, Address, ValueText, Trim,
         SourceOf, Trimmed;
    var env := Read(Some(Regenerate(lines, file)));
    LayoutHolds(lines, p);
    UrlSources(DB_URL, p);
    AddressSources(p);
    ReadsAs(lines, p, file, DB_URL);
    AddressText(p, Read(file));
    VariableIsThere(lines, p, POSTGRES_USER);
    OperatorValuesSurvive(lines, file, NameOf(POSTGRES_USER), "postgres");
    VariableIsThere(lines, p, POSTGRES_PASSWORD);
    OperatorValuesSurvive(lines, file, NameOf(POSTGRES_PASSWORD), "postgres");
    VariableIsThere(lines, p, POSTGRES_HOST_PORT);
    OperatorValuesSurvive(lines, file, NameOf(POSTGRES_HOST_PORT), FormatInt(p.postgresPort));
    VariableIsThere(lines, p, POSTGRES_DB);
    DerivedValuesWin(lines, file, NameOf(POSTGRES_DB), p.database);
    TrimTrims(p.database);
    AddressIsTrimmed(env[NameOf(POSTGRES_USER)], env[NameOf(POSTGRES_PASSWORD)], FormatInt(p.postgresPort), p.database);
    AddressHasOnePort(env[NameOf(POSTGRES_USER)], env[NameOf(POSTGRES_PASSWORD)], FormatInt(p.postgresPort),
                      env[NameOf(POSTGRES_HOST_PORT)], p.database);
  }

  lemma AddressSources(p: Project)
    ensures SourceOf(POSTGRES_HOST_PORT, p) == FromFile(FormatInt(p.postgresPort))
    ensures SourceOf(POSTGRES_DB, p) == FromProject(p.database)
  {
    hide FormatInt;
  }

  lemma ReadsAs(lines: seq<Line>, p: Project, file: Option<string>, v: Var)
    requires GoodLayout(lines) && Lays(lines, p)
    ensures var env := Read(Some(Regenerate(lines, file)));
            NameOf(v) in env && env[NameOf(v)] == Trim(ValueText(ValueOf(v, p), Read(file)))
  {
    hide Regenerate, Read, NameOf, Lays, GoodLayout, ValueText, Trim, ValueOf;
    VariableIsThere(lines, p, v);
    RegeneratedFileReads(lines, file);
    assert LineOf(v, p).Assign?;
  }

  lemma SecretSources(p: Project)
    ensures NameOf(KEYCLOAK_ADMIN_PASSWORD) == EnvFile.KEYCLOAK_ADMIN_PASSWORD
    ensures NameOf(KEYCLOAK_CLIENT_SECRET) == EnvFile.KEYCLOAK_CLIENT_SECRET
    ensures NameOf(SEED_USER_PASSWORD) == EnvFile.SEED_USER_PASSWORD
    ensures NameOf(KEYCLOAK_ADMIN_CLIENT_SECRET) == EnvFile.KEYCLOAK_ADMIN_CLIENT_SECRET
    ensures SourceOf(KEYCLOAK_ADMIN_PASSWORD, p) == FromFile(DefaultSecrets.adminPassword)
    ensures SourceOf(KEYCLOAK_CLIENT_SECRET, p) == FromFile(DefaultSecrets.clientSecret)
    ensures SourceOf(SEED_USER_PASSWORD, p) == FromFile(DefaultSecrets.seedUserPassword)
    ensures SourceOf(KEYCLOAK_ADMIN_CLIENT_SECRET, p) ==
            if p.identityManagement then FromFile(DefaultSecrets.adminClientSecret) else FromProject("")
  {
  }
}
