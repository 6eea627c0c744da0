/** The settings that `Settings.validate` checks, in its order. */
module Settings {
  import opened Wrappers

  datatype Settings = Settings(
    appEnv: string,
    pgPassword: string,
    dbPoolMinSize: int,
    dbPoolMaxSize: int,
    dbSslMode: string,
    dbSslCaFile: Option<string>,
    authMode: string,
    requireApiKey: bool,
    apiKeyRead: Option<string>,
    apiKeyWrite: Option<string>,
    apiKeyAdmin: Option<string>,
    apiKey: Option<string>,
    jwtSecret: Option<string>,
    enforceTenantAuth: bool,
    rateLimitEnabled: bool,
    rateLimitBackend: string,
    redisUrl: Option<string>,
    rateLimitRequests: int,
    rateLimitWindowSeconds: int,
    defaultListLimit: int,
    maxListLimit: int,
    metricsAuthEnabled: bool,
    metricsToken: Option<string>)

  /** Python truth of an optional string. */
  predicate Given(x: Option<string>) {
    x.Some? && x.value != ""
  }

  /** The ranges `_int_env` imposes when the settings are read. */
  predicate Ranged(s: Settings) {
    s.rateLimitRequests >= 1 && s.rateLimitWindowSeconds >= 1 && s.defaultListLimit >= 1 && s.maxListLimit >= 1
  }

  predicate UsesApiKeys(s: Settings) {
    s.authMode == "api_key" || s.authMode == "api_key_or_jwt"
  }

  predicate UsesJwt(s: Settings) {
    s.authMode == "jwt" || s.authMode == "api_key_or_jwt"
  }

  /** `validate`: the first complaint, or None. */
  function Validate(s: Settings): Option<string> {
    if s.dbPoolMinSize > s.dbPoolMaxSize then Some("DB_POOL_MIN_SIZE")
    else if s.authMode !in {"disabled", "api_key", "jwt", "api_key_or_jwt"} then Some("AUTH_MODE")
    else if s.requireApiKey && !(Given(s.apiKeyRead) || Given(s.apiKeyWrite) || Given(s.apiKeyAdmin) || Given(s.apiKey))
    then Some("REQUIRE_API_KEY")
    else if s.rateLimitBackend !in {"redis", "memory", "gateway"} then Some("RATE_LIMIT_BACKEND")
    else if s.dbSslMode !in {"disable", "prefer", "require", "verify-ca", "verify-full"} then Some("DB_SSLMODE")
    else if UsesJwt(s) && !Given(s.jwtSecret) then Some("JWT_SECRET")
    else if s.appEnv == "production" then ValidateProduction(s)
    else None
  }

  function ValidateProduction(s: Settings): Option<string> {
    if s.pgPassword in {"admin", "password", "postgres", "gr5"} then Some("insecure database password")
    else if s.dbSslMode != "verify-full" then Some("DB_SSLMODE=verify-full")
    else if !Given(s.dbSslCaFile) then Some("DB_SSL_CA_FILE")
    else if s.authMode == "disabled" then Some("AUTH_MODE=disabled")
    else if UsesApiKeys(s) && !(Given(s.apiKeyRead) && Given(s.apiKeyWrite) && Given(s.apiKeyAdmin))
    then Some("APP_API_KEY_READ/WRITE/ADMIN")
    else if Given(s.apiKey) then Some("APP_API_KEY")
    else if UsesJwt(s) && !Given(s.jwtSecret) then Some("JWT_SECRET")
    else if s.rateLimitEnabled && s.rateLimitBackend == "redis" && !Given(s.redisUrl) then Some("REDIS_URL")
    else if s.rateLimitEnabled && s.rateLimitBackend == "memory" then Some("RATE_LIMIT_BACKEND=memory")
    else if !s.metricsAuthEnabled then Some("METRICS_AUTH_ENABLED")
    else if s.metricsAuthEnabled && !Given(s.metricsToken) then Some("METRICS_TOKEN")
    else None
  }

  predicate Production(s: Settings) {
    s.appEnv == "production"
  }

  // ---- what is accepted ------------------------------------------------------------------

  /** What every environment must satisfy. */
  predicate SoundSettings(s: Settings) {
    && s.dbPoolMinSize <= s.dbPoolMaxSize
    && s.authMode in ["disabled", "api_key", "jwt", "api_key_or_jwt"]
    && (s.requireApiKey ==> exists key :: key in [s.apiKeyRead, s.apiKeyWrite, s.apiKeyAdmin, s.apiKey] && Given(key))
    && s.rateLimitBackend in ["redis", "memory", "gateway"]
    && s.dbSslMode in ["disable", "prefer", "require", "verify-ca", "verify-full"]
    && (s.authMode == "jwt" || s.authMode == "api_key_or_jwt" ==> Given(s.jwtSecret))
  }

  /** What production demands on top. */
  predicate HardenedSettings(s: Settings) {
    && s.pgPassword !in ["admin", "password", "postgres", "gr5"]
    && s.dbSslMode == "verify-full" && Given(s.dbSslCaFile)
    && s.authMode != "disabled"
    && (s.authMode == "api_key" || s.authMode == "api_key_or_jwt" ==>
          Given(s.apiKeyRead) && Given(s.apiKeyWrite) && Given(s.apiKeyAdmin))
    && !Given(s.apiKey)
    && (s.rateLimitEnabled ==> s.rateLimitBackend != "memory")
    && (s.rateLimitEnabled && s.rateLimitBackend == "redis" ==> Given(s.redisUrl))
    && s.metricsAuthEnabled && Given(s.metricsToken)
  }

  /** Settings are accepted exactly when they are sound, and hardened in production. */
  lemma AcceptedExactly(s: Settings)
    ensures Validate(s) == None <==> SoundSettings(s) && (s.appEnv == "production" ==> HardenedSettings(s))
  {
    var keys := [s.apiKeyRead, s.apiKeyWrite, s.apiKeyAdmin, s.apiKey];
    assert keys[0] in keys && keys[1] in keys && keys[2] in keys && keys[3] in keys;
  }

  /** The smallest values that are read are one of each; nothing smaller is. */
  lemma SmallestRanges(s: Settings)
    ensures Ranged(s.(rateLimitRequests := 1, rateLimitWindowSeconds := 1, defaultListLimit := 1, maxListLimit := 1))
    ensures s.rateLimitRequests < 1 || s.rateLimitWindowSeconds < 1 || s.defaultListLimit < 1 || s.maxListLimit < 1 ==>
              !Ranged(s)
  {}
}
