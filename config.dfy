/**
 * The settings read from the process environment at start-up: ticket price,
 * admin PIN and the payment provider's access token, return URL and
 * test-mode flag. The environment is a map from variable name to value.
 */
module Config {
  import opened Wrappers
  import opened Text

  type Env = map<string, string>

  /** `os.getenv(key, default)`: an empty value that is set is kept. */
  function GetEnv(env: Env, key: string, default: string): string {
    if key in env then env[key] else default
  }

  /** `os.getenv(key)` with no default. */
  function LookupEnv(env: Env, key: string): Option<string> {
    if key in env then Some(env[key]) else None
  }

  /** `TICKET_PRICE_AED`: `int()` of the variable, "175" when unset; None is the start-up ValueError. */
  function TicketPriceAed(env: Env): Option<int> {
    ParseInt(GetEnv(env, "TICKET_PRICE_AED", "175"))
  }

  /** `ADMIN_PIN`, "change_me" when unset. */
  function AdminPin(env: Env): string {
    GetEnv(env, "ADMIN_PIN", "change_me")
  }

  /** An enabled flag: after trimming and lower-casing, one of 1, true, yes, on. */
  predicate IsTrueFlag(v: string) {
    Lower(Strip(v)) in {"1", "true", "yes", "on"}
  }

  datatype ZiinaConfig = ZiinaConfig(accessToken: Option<string>, appBaseUrl: string, testMode: bool)

  /** `get_ziina_config()`. */
  function GetZiinaConfig(env: Env): ZiinaConfig {
    ZiinaConfig(
      LookupEnv(env, "ZIINA_ACCESS_TOKEN"),
      GetEnv(env, "ZIINA_APP_BASE_URL", "http://localhost:8000"),
      IsTrueFlag(GetEnv(env, "ZIINA_TEST_MODE", "false")))
  }

  // ---------------------------------------------------------------------
  // Lemmas
  // ---------------------------------------------------------------------

  lemma DigitsValue175()
    ensures DigitsValue("175") == 175
  {
    assert PrefixValue("175", 1) == 1;
    assert PrefixValue("175", 2) == 17;
  }

  lemma FalseIsNotAFlag()
    ensures !IsTrueFlag("false")
  {
    PrintableNotSpace('f');
    PrintableNotSpace('e');
    StripUnchanged("false");
  }

  /** With nothing set, every setting takes its default: price 175, PIN change_me, no token, localhost, test mode off. */
  lemma Defaults(env: Env)
    requires "TICKET_PRICE_AED" !in env && "ADMIN_PIN" !in env
    requires "ZIINA_ACCESS_TOKEN" !in env && "ZIINA_APP_BASE_URL" !in env && "ZIINA_TEST_MODE" !in env
    ensures TicketPriceAed(env) == Some(175)
    ensures AdminPin(env) == "change_me"
    ensures GetZiinaConfig(env) == ZiinaConfig(None, "http://localhost:8000", false)
  {
    ParseDigits("175");
    DigitsValue175();
    FalseIsNotAFlag();
  }

  /** The test-mode flag holds exactly when the variable is set to an enabled flag. */
  lemma TestModeIff(env: Env)
    ensures GetZiinaConfig(env).testMode <==> ("ZIINA_TEST_MODE" in env && IsTrueFlag(env["ZIINA_TEST_MODE"]))
  {
    FalseIsNotAFlag();
  }
}
