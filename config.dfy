/**
 * The `@setup` block: the deployment configuration is read from a
 * key/value environment (what the dotenv library loaded from the
 * `config` file), twelve keys are demanded, the optional ones get their
 * fallbacks, and the branch comes from the command line.
 */
module Config {
  import opened Wrappers

  type Env = map<string, string>

  /** The keys the script demands, in the order it lists them. */
  const Required: seq<string> := [
    "TARGET_SERVER", "TARGET_USER", "TARGET_DIR",
    "REPOSITORY",
    "APP_NAME", "APP_ENV", "APP_DEBUG", "APP_URL",
    "DB_HOST", "DB_DATABASE", "DB_USERNAME", "DB_PASSWORD"]

  const DefaultBranch := "main"

  /** The resolved settings; a `None` field stands for PHP's `null`. */
  datatype Config = Config(
    server: string, user: string, dir: string,
    repository: string, branch: string,
    appName: string, appEnv: string, appDebug: string, appUrl: string,
    dbHost: string, dbDatabase: string, dbUsername: string, dbPassword: string,
    mailMailer: string, mailHost: string, mailPort: string,
    mailUsername: Option<string>, mailPassword: Option<string>,
    mailEncryption: Option<string>,
    mailFromAddress: Option<string>, mailFromName: Option<string>,
    mailReplytoAddress: Option<string>, mailReplytoName: Option<string>,
    slackHook: Option<string>, slackChannel: Option<string>)

  /**
   * Why resolution stops the script: the library first reports every
   * required key that is absent; only when none is absent does it report
   * every one whose value is blank.
   */
  datatype ConfigError = Missing(keys: seq<string>) | Blank(keys: seq<string>)

  /** The characters PHP's `trim` removes. */
  predicate IsSpace(c: char)
  {
    c == ' ' || c == '\t' || c == '\n' || c == '\r' || c == '\0' || c == '\U{B}'
  }

  /** What the `notEmpty` check rejects: nothing left after trimming. */
  predicate IsBlank(v: string)
  {
    forall i :: 0 <= i < |v| ==> IsSpace(v[i])
  }

  /** The keys among `keys` that `env` does not define, in order. */
  function Absent(env: Env, keys: seq<string>): (r: seq<string>)
    ensures forall k :: k in r <==> k in keys && k !in env
    ensures |r| <= |keys|
  {
    if keys == [] then []
    else (if keys[0] in env then [] else [keys[0]]) + Absent(env, keys[1..])
  }

  /** The keys among `keys` that `env` defines with a blank value, in order. */
  function Blanks(env: Env, keys: seq<string>): (r: seq<string>)
    ensures forall k :: k in r <==> k in keys && k in env && IsBlank(env[k])
    ensures |r| <= |keys|
  {
    if keys == [] then []
    else (if keys[0] in env && IsBlank(env[keys[0]]) then [keys[0]] else []) + Blanks(env, keys[1..])
  }

  /** PHP's `$_ENV[key] ?? fallback`: a defined key wins, even when empty. */
  function OrDefault(env: Env, key: string, fallback: string): string
  {
    if key in env then env[key] else fallback
  }

  function Lookup(env: Env, key: string): Option<string>
  {
    if key in env then Some(env[key]) else None
  }

  /** The configuration the `@setup` block computes, or why it exits. */
  function Resolve(env: Env, branch: Option<string>): (r: Result<Config, ConfigError>)
    ensures r.Ok? <==> forall k :: k in Required ==> k in env && !IsBlank(env[k])
    ensures r.Err? && r.error.Missing? ==>
      r.error.keys != [] && forall k :: k in r.error.keys <==> k in Required && k !in env
    ensures r.Err? && r.error.Blank? ==>
      r.error.keys != [] && (forall k :: k in Required ==> k in env) &&
      forall k :: k in r.error.keys <==> k in Required && IsBlank(env[k])
    ensures r.Ok? ==> r.value.branch == (if branch.Some? then branch.value else DefaultBranch)
  {
    var absent := Absent(env, Required);
    var blanks := Blanks(env, Required);
    if absent != [] then
      assert absent[0] in absent;
      Err(Missing(absent))
    else if blanks != [] then
      assert blanks[0] in blanks;
      Err(Blank(blanks))
    else
      Ok(Settings(env, branch))
  }

  /** The `$_ENV[...]` assignments, once every required key is known to be defined. */
  function Settings(env: Env, branch: Option<string>): (c: Config)
    requires forall k :: k in Required ==> k in env
  {
    assert Required == ["TARGET_SERVER", "TARGET_USER", "TARGET_DIR", "REPOSITORY",
      "APP_NAME", "APP_ENV", "APP_DEBUG", "APP_URL",
      "DB_HOST", "DB_DATABASE", "DB_USERNAME", "DB_PASSWORD"];
    Config(
        env["TARGET_SERVER"], env["TARGET_USER"], env["TARGET_DIR"],
        env["REPOSITORY"], if branch.Some? then branch.value else DefaultBranch,
        env["APP_NAME"], env["APP_ENV"], env["APP_DEBUG"], env["APP_URL"],
        env["DB_HOST"], env["DB_DATABASE"], env["DB_USERNAME"], env["DB_PASSWORD"],
        OrDefault(env, "MAIL_MAILER", "log"), OrDefault(env, "MAIL_HOST", "localhost"),
        OrDefault(env, "MAIL_PORT", "25"),
        Lookup(env, "MAIL_USERNAME"), Lookup(env, "MAIL_PASSWORD"),
        Lookup(env, "MAIL_ENCRYPTION"),
        Lookup(env, "MAIL_FROM_ADDRESS"), Lookup(env, "MAIL_FROM_NAME"),
        Lookup(env, "MAIL_REPLYTO_ADDRESS"), Lookup(env, "MAIL_REPLYTO_NAME"),
        Lookup(env, "LOG_SLACK_WEBHOOK_URL"), Lookup(env, "LOG_SLACK_CHANNEL"))
  }

  /** The required settings are the values the environment defines for them. */
  lemma ResolveRequired(env: Env, branch: Option<string>)
    requires Resolve(env, branch).Ok?
    ensures var c := Resolve(env, branch).value;
      && "TARGET_SERVER" in env && c.server == env["TARGET_SERVER"]
      && "TARGET_USER" in env && c.user == env["TARGET_USER"]
      && "TARGET_DIR" in env && c.dir == env["TARGET_DIR"]
      && "REPOSITORY" in env && c.repository == env["REPOSITORY"]
      && "APP_NAME" in env && c.appName == env["APP_NAME"]
      && "APP_ENV" in env && c.appEnv == env["APP_ENV"]
      && "APP_DEBUG" in env && c.appDebug == env["APP_DEBUG"]
      && "APP_URL" in env && c.appUrl == env["APP_URL"]
      && "DB_HOST" in env && c.dbHost == env["DB_HOST"]
      && "DB_DATABASE" in env && c.dbDatabase == env["DB_DATABASE"]
      && "DB_USERNAME" in env && c.dbUsername == env["DB_USERNAME"]
      && "DB_PASSWORD" in env && c.dbPassword == env["DB_PASSWORD"]
  {
    RequiredKeys();
    assert Resolve(env, branch) == Ok(Settings(env, branch));
  }

  /** Each required key, by its place in the list. */
  lemma RequiredKeys()
    ensures "TARGET_SERVER" in Required && "TARGET_USER" in Required && "TARGET_DIR" in Required
    ensures "REPOSITORY" in Required
    ensures "APP_NAME" in Required && "APP_ENV" in Required && "APP_DEBUG" in Required && "APP_URL" in Required
    ensures "DB_HOST" in Required && "DB_DATABASE" in Required && "DB_USERNAME" in Required && "DB_PASSWORD" in Required
  {
    assert Required[0] == "TARGET_SERVER" && Required[1] == "TARGET_USER" && Required[2] == "TARGET_DIR";
    assert Required[3] == "REPOSITORY";
    assert Required[4] == "APP_NAME" && Required[5] == "APP_ENV" && Required[6] == "APP_DEBUG" && Required[7] == "APP_URL";
    assert Required[8] == "DB_HOST" && Required[9] == "DB_DATABASE" && Required[10] == "DB_USERNAME" && Required[11] == "DB_PASSWORD";
  }

  /**
   * The optional settings follow PHP's `??`: a defined key gives its value,
   * even an empty one; an undefined key gives the fallback, which is `log`,
   * `localhost` and `25` for the mail transport and null for the others.
   * Without a branch option the branch is `main`.
   */
  lemma ResolveDefaults(env: Env, branch: Option<string>)
    requires Resolve(env, branch).Ok?
    ensures var c := Resolve(env, branch).value;
      && ("MAIL_MAILER" in env ==> c.mailMailer == env["MAIL_MAILER"])
      && ("MAIL_MAILER" !in env ==> c.mailMailer == "log")
      && ("MAIL_HOST" in env ==> c.mailHost == env["MAIL_HOST"])
      && ("MAIL_HOST" !in env ==> c.mailHost == "localhost")
      && ("MAIL_PORT" in env ==> c.mailPort == env["MAIL_PORT"])
      && ("MAIL_PORT" !in env ==> c.mailPort == "25")
      && ("MAIL_USERNAME" in env ==> c.mailUsername == Some(env["MAIL_USERNAME"]))
      && ("MAIL_USERNAME" !in env ==> c.mailUsername.None?)
      && ("MAIL_PASSWORD" in env ==> c.mailPassword == Some(env["MAIL_PASSWORD"]))
      && ("MAIL_PASSWORD" !in env ==> c.mailPassword.None?)
      && ("MAIL_ENCRYPTION" in env ==> c.mailEncryption == Some(env["MAIL_ENCRYPTION"]))
      && ("MAIL_ENCRYPTION" !in env ==> c.mailEncryption.None?)
      && ("MAIL_FROM_ADDRESS" in env ==> c.mailFromAddress == Some(env["MAIL_FROM_ADDRESS"]))
      && ("MAIL_FROM_ADDRESS" !in env ==> c.mailFromAddress.None?)
      && ("MAIL_FROM_NAME" in env ==> c.mailFromName == Some(env["MAIL_FROM_NAME"]))
      && ("MAIL_FROM_NAME" !in env ==> c.mailFromName.None?)
      && ("MAIL_REPLYTO_ADDRESS" in env ==> c.mailReplytoAddress == Some(env["MAIL_REPLYTO_ADDRESS"]))
      && ("MAIL_REPLYTO_ADDRESS" !in env ==> c.mailReplytoAddress.None?)
      && ("MAIL_REPLYTO_NAME" in env ==> c.mailReplytoName == Some(env["MAIL_REPLYTO_NAME"]))
      && ("MAIL_REPLYTO_NAME" !in env ==> c.mailReplytoName.None?)
      && ("LOG_SLACK_WEBHOOK_URL" in env ==> c.slackHook == Some(env["LOG_SLACK_WEBHOOK_URL"]))
      && ("LOG_SLACK_WEBHOOK_URL" !in env ==> c.slackHook.None?)
      && ("LOG_SLACK_CHANNEL" in env ==> c.slackChannel == Some(env["LOG_SLACK_CHANNEL"]))
      && ("LOG_SLACK_CHANNEL" !in env ==> c.slackChannel.None?)
      && (branch.None? ==> c.branch == "main")
  {
  }
}
