/**
 * The `sed -i` command of the deploy task that updates `.env`: twenty
 * substitutions `s%KEY=.*%KEY=value%`, applied in order to every line.
 * Each one replaces the text from the first occurrence of `KEY=` in the
 * line to the end of the line with `KEY=value`; the pattern is not
 * anchored, so whatever precedes the occurrence stays.
 */
module EnvRewrite {
  import opened Wrappers
  import opened Text
  import Config
  import Sed

  /** The twenty keys the script rewrites. */
  datatype Key =
      AppName | AppEnv | AppDebug | AppUrl
    | DbHost | DbDatabase | DbUsername | DbPassword
    | MailMailer | MailHost | MailPort | MailUsername
    | MailPassword | MailEncryption | MailFromAddress | MailFromName
    | MailReplytoAddress | MailReplytoName | LogSlackWebhookUrl | LogSlackChannel

  /** The literal text each substitution searches for. */
  function Pattern(k: Key): string
  {
    match k
    case AppName => "APP_NAME="
    case AppEnv => "APP_ENV="
    case AppDebug => "APP_DEBUG="
    case AppUrl => "APP_URL="
    case DbHost => "DB_HOST="
    case DbDatabase => "DB_DATABASE="
    case DbUsername => "DB_USERNAME="
    case DbPassword => "DB_PASSWORD="
    case MailMailer => "MAIL_MAILER="
    case MailHost => "MAIL_HOST="
    case MailPort => "MAIL_PORT="
    case MailUsername => "MAIL_USERNAME="
    case MailPassword => "MAIL_PASSWORD="
    case MailEncryption => "MAIL_ENCRYPTION="
    case MailFromAddress => "MAIL_FROM_ADDRESS="
    case MailFromName => "MAIL_FROM_NAME="
    case MailReplytoAddress => "MAIL_REPLYTO_ADDRESS="
    case MailReplytoName => "MAIL_REPLYTO_NAME="
    case LogSlackWebhookUrl => "LOG_SLACK_WEBHOOK_URL="
    case LogSlackChannel => "LOG_SLACK_CHANNEL="
  }

  /** The order of the commands in the script. */
  const Order: seq<Key> := [
    AppName, AppEnv, AppDebug, AppUrl,
    DbHost, DbDatabase, DbUsername, DbPassword,
    MailMailer, MailHost, MailPort, MailUsername,
    MailPassword, MailEncryption, MailFromAddress, MailFromName,
    MailReplytoAddress, MailReplytoName, LogSlackWebhookUrl, LogSlackChannel
  ]

  /** Blade prints `null` as nothing. */
  function OrEmpty(v: Option<string>): string
  {
    if v.Some? then v.value else ""
  }

  /** The value the script substitutes for `k`. */
  function Value(c: Config.Config, k: Key): string
  {
    match k
    case AppName => c.appName
    case AppEnv => c.appEnv
    case AppDebug => c.appDebug
    case AppUrl => c.appUrl
    case DbHost => c.dbHost
    case DbDatabase => c.dbDatabase
    case DbUsername => c.dbUsername
    case DbPassword => c.dbPassword
    case MailMailer => c.mailMailer
    case MailHost => c.mailHost
    case MailPort => c.mailPort
    case MailUsername => OrEmpty(c.mailUsername)
    case MailPassword => OrEmpty(c.mailPassword)
    case MailEncryption => OrEmpty(c.mailEncryption)
    case MailFromAddress => OrEmpty(c.mailFromAddress)
    case MailFromName => OrEmpty(c.mailFromName)
    case MailReplytoAddress => OrEmpty(c.mailReplytoAddress)
    case MailReplytoName => OrEmpty(c.mailReplytoName)
    case LogSlackWebhookUrl => OrEmpty(c.slackHook)
    case LogSlackChannel => OrEmpty(c.slackChannel)
  }

  /** The script, its commands in source order: each key's pattern and the value for it. */
  function Script(c: Config.Config): (cs: seq<Sed.Command>)
    ensures |cs| == |Order| == 20
    ensures forall n :: 0 <= n < |cs| ==> cs[n] == Sed.Command(Pattern(Order[n]), Value(c, Order[n]))
  {
    seq(|Order|, n requires 0 <= n < |Order| => Sed.Command(Pattern(Order[n]), Value(c, Order[n])))
  }

  lemma KeyAppName(b: Key)
    ensures Sed.IsPattern(Pattern(AppName))
    ensures b != AppName ==> !EndsWith(Pattern(AppName), Pattern(b))
  {
    match b { case AppName => case AppEnv => case AppDebug => case AppUrl => case DbHost => case DbDatabase => case DbUsername => case DbPassword => case MailMailer => case MailHost => case MailPort => case MailUsername => case MailPassword => case MailEncryption => case MailFromAddress => case MailFromName => case MailReplytoAddress => case MailReplytoName => case LogSlackWebhookUrl => case LogSlackChannel => }
  }

  lemma KeyAppEnv(b: Key)
    ensures Sed.IsPattern(Pattern(AppEnv))
    ensures b != AppEnv ==> !EndsWith(Pattern(AppEnv), Pattern(b))
  {
    match b { case AppName => case AppEnv => case AppDebug => case AppUrl => case DbHost => case DbDatabase => case DbUsername => case DbPassword => case MailMailer => case MailHost => case MailPort => case MailUsername => case MailPassword => case MailEncryption => case MailFromAddress => case MailFromName => case MailReplytoAddress => case MailReplytoName => case LogSlackWebhookUrl => case LogSlackChannel => }
  }

  lemma KeyAppDebug(b: Key)
    ensures Sed.IsPattern(Pattern(AppDebug))
    ensures b != AppDebug ==> !EndsWith(Pattern(AppDebug), Pattern(b))
  {
    match b { case AppName => case AppEnv => case AppDebug => case AppUrl => case DbHost => case DbDatabase => case DbUsername => case DbPassword => case MailMailer => case MailHost => case MailPort => case MailUsername => case MailPassword => case MailEncryption => case MailFromAddress => case MailFromName => case MailReplytoAddress => case MailReplytoName => case LogSlackWebhookUrl => case LogSlackChannel => }
  }

  lemma KeyAppUrl(b: Key)
    ensures Sed.IsPattern(Pattern(AppUrl))
    ensures b != AppUrl ==> !EndsWith(Pattern(AppUrl), Pattern(b))
  {
    match b { case AppName => case AppEnv => case AppDebug => case AppUrl => case DbHost => case DbDatabase => case DbUsername => case DbPassword => case MailMailer => case MailHost => case MailPort => case MailUsername => case MailPassword => case MailEncryption => case MailFromAddress => case MailFromName => case MailReplytoAddress => case MailReplytoName => case LogSlackWebhookUrl => case LogSlackChannel => }
  }

  lemma KeyDbHost(b: Key)
    ensures Sed.IsPattern(Pattern(DbHost))
    ensures b != DbHost ==> !EndsWith(Pattern(DbHost), Pattern(b))
  {
    match b { case AppName => case AppEnv => case AppDebug => case AppUrl => case DbHost => case DbDatabase => case DbUsername => case DbPassword => case MailMailer => case MailHost => case MailPort => case MailUsername => case MailPassword => case MailEncryption => case MailFromAddress => case MailFromName => case MailReplytoAddress => case MailReplytoName => case LogSlackWebhookUrl => case LogSlackChannel => }
  }

  lemma KeyDbDatabase(b: Key)
    ensures Sed.IsPattern(Pattern(DbDatabase))
    ensures b != DbDatabase ==> !EndsWith(Pattern(DbDatabase), Pattern(b))
  {
    match b { case AppName => case AppEnv => case AppDebug => case AppUrl => case DbHost => case DbDatabase => case DbUsername => case DbPassword => case MailMailer => case MailHost => case MailPort => case MailUsername => case MailPassword => case MailEncryption => case MailFromAddress => case MailFromName => case MailReplytoAddress => case MailReplytoName => case LogSlackWebhookUrl => case LogSlackChannel => }
  }

  lemma KeyDbUsername(b: Key)
    ensures Sed.IsPattern(Pattern(DbUsername))
    ensures b != DbUsername ==> !EndsWith(Pattern(DbUsername), Pattern(b))
  {
    match b { case AppName => case AppEnv => case AppDebug => case AppUrl => case DbHost => case DbDatabase => case DbUsername => case DbPassword => case MailMailer => case MailHost => case MailPort => case MailUsername => case MailPassword => case MailEncryption => case MailFromAddress => case MailFromName => case MailReplytoAddress => case MailReplytoName => case LogSlackWebhookUrl => case LogSlackChannel => }
  }

  lemma KeyDbPassword(b: Key)
    ensures Sed.IsPattern(Pattern(DbPassword))
    ensures b != DbPassword ==> !EndsWith(Pattern(DbPassword), Pattern(b))
  {
    match b { case AppName => case AppEnv => case AppDebug => case AppUrl => case DbHost => case DbDatabase => case DbUsername => case DbPassword => case MailMailer => case MailHost => case MailPort => case MailUsername => case MailPassword => case MailEncryption => case MailFromAddress => case MailFromName => case MailReplytoAddress => case MailReplytoName => case LogSlackWebhookUrl => case LogSlackChannel => }
  }

  lemma KeyMailMailer(b: Key)
    ensures Sed.IsPattern(Pattern(MailMailer))
    ensures b != MailMailer ==> !EndsWith(Pattern(MailMailer), Pattern(b))
  {
    match b { case AppName => case AppEnv => case AppDebug => case AppUrl => case DbHost => case DbDatabase => case DbUsername => case DbPassword => case MailMailer => case MailHost => case MailPort => case MailUsername => case MailPassword => case MailEncryption => case MailFromAddress => case MailFromName => case MailReplytoAddress => case MailReplytoName => case LogSlackWebhookUrl => case LogSlackChannel => }
  }

  lemma KeyMailHost(b: Key)
    ensures Sed.IsPattern(Pattern(MailHost))
    ensures b != MailHost ==> !EndsWith(Pattern(MailHost), Pattern(b))
  {
    match b { case AppName => case AppEnv => case AppDebug => case AppUrl => case DbHost => case DbDatabase => case DbUsername => case DbPassword => case MailMailer => case MailHost => case MailPort => case MailUsername => case MailPassword => case MailEncryption => case MailFromAddress => case MailFromName => case MailReplytoAddress => case MailReplytoName => case LogSlackWebhookUrl => case LogSlackChannel => }
  }

  lemma KeyMailPort(b: Key)
    ensures Sed.IsPattern(Pattern(MailPort))
    ensures b != MailPort ==> !EndsWith(Pattern(MailPort), Pattern(b))
  {
    match b { case AppName => case AppEnv => case AppDebug => case AppUrl => case DbHost => case DbDatabase => case DbUsername => case DbPassword => case MailMailer => case MailHost => case MailPort => case MailUsername => case MailPassword => case MailEncryption => case MailFromAddress => case MailFromName => case MailReplytoAddress => case MailReplytoName => case LogSlackWebhookUrl => case LogSlackChannel => }
  }

  lemma KeyMailUsername(b: Key)
    ensures Sed.IsPattern(Pattern(MailUsername))
    ensures b != MailUsername ==> !EndsWith(Pattern(MailUsername), Pattern(b))
  {
    match b { case AppName => case AppEnv => case AppDebug => case AppUrl => case DbHost => case DbDatabase => case DbUsername => case DbPassword => case MailMailer => case MailHost => case MailPort => case MailUsername => case MailPassword => case MailEncryption => case MailFromAddress => case MailFromName => case MailReplytoAddress => case MailReplytoName => case LogSlackWebhookUrl => case LogSlackChannel => }
  }

  lemma KeyMailPassword(b: Key)
    ensures Sed.IsPattern(Pattern(MailPassword))
    ensures b != MailPassword ==> !EndsWith(Pattern(MailPassword), Pattern(b))
  {
    match b { case AppName => case AppEnv => case AppDebug => case AppUrl => case DbHost => case DbDatabase => case DbUsername => case DbPassword => case MailMailer => case MailHost => case MailPort => case MailUsername => case MailPassword => case MailEncryption => case MailFromAddress => case MailFromName => case MailReplytoAddress => case MailReplytoName => case LogSlackWebhookUrl => case LogSlackChannel => }
  }

  lemma KeyMailEncryption(b: Key)
    ensures Sed.IsPattern(Pattern(MailEncryption))
    ensures b != MailEncryption ==> !EndsWith(Pattern(MailEncryption), Pattern(b))
  {
    match b { case AppName => case AppEnv => case AppDebug => case AppUrl => case DbHost => case DbDatabase => case DbUsername => case DbPassword => case MailMailer => case MailHost => case MailPort => case MailUsername => case MailPassword => case MailEncryption => case MailFromAddress => case MailFromName => case MailReplytoAddress => case MailReplytoName => case LogSlackWebhookUrl => case LogSlackChannel => }
  }

  lemma KeyMailFromAddress(b: Key)
    ensures Sed.IsPattern(Pattern(MailFromAddress))
    ensures b != MailFromAddress ==> !EndsWith(Pattern(MailFromAddress), Pattern(b))
  {
    match b { case AppName => case AppEnv => case AppDebug => case AppUrl => case DbHost => case DbDatabase => case DbUsername => case DbPassword => case MailMailer => case MailHost => case MailPort => case MailUsername => case MailPassword => case MailEncryption => case MailFromAddress => case MailFromName => case MailReplytoAddress => case MailReplytoName => case LogSlackWebhookUrl => case LogSlackChannel => }
  }

  lemma KeyMailFromName(b: Key)
    ensures Sed.IsPattern(Pattern(MailFromName))
    ensures b != MailFromName ==> !EndsWith(Pattern(MailFromName), Pattern(b))
  {
    match b { case AppName => case AppEnv => case AppDebug => case AppUrl => case DbHost => case DbDatabase => case DbUsername => case DbPassword => case MailMailer => case MailHost => case MailPort => case MailUsername => case MailPassword => case MailEncryption => case MailFromAddress => case MailFromName => case MailReplytoAddress => case MailReplytoName => case LogSlackWebhookUrl => case LogSlackChannel => }
  }

  lemma KeyMailReplytoAddress(b: Key)
    ensures Sed.IsPattern(Pattern(MailReplytoAddress))
    ensures b != MailReplytoAddress ==> !EndsWith(Pattern(MailReplytoAddress), Pattern(b))
  {
    match b { case AppName => case AppEnv => case AppDebug => case AppUrl => case DbHost => case DbDatabase => case DbUsername => case DbPassword => case MailMailer => case MailHost => case MailPort => case MailUsername => case MailPassword => case MailEncryption => case MailFromAddress => case MailFromName => case MailReplytoAddress => case MailReplytoName => case LogSlackWebhookUrl => case LogSlackChannel => }
  }

  lemma KeyMailReplytoName(b: Key)
    ensures Sed.IsPattern(Pattern(MailReplytoName))
    ensures b != MailReplytoName ==> !EndsWith(Pattern(MailReplytoName), Pattern(b))
  {
    match b { case AppName => case AppEnv => case AppDebug => case AppUrl => case DbHost => case DbDatabase => case DbUsername => case DbPassword => case MailMailer => case MailHost => case MailPort => case MailUsername => case MailPassword => case MailEncryption => case MailFromAddress => case MailFromName => case MailReplytoAddress => case MailReplytoName => case LogSlackWebhookUrl => case LogSlackChannel => }
  }

  lemma KeyLogSlackWebhookUrl(b: Key)
    ensures Sed.IsPattern(Pattern(LogSlackWebhookUrl))
    ensures b != LogSlackWebhookUrl ==> !EndsWith(Pattern(LogSlackWebhookUrl), Pattern(b))
  {
    match b { case AppName => case AppEnv => case AppDebug => case AppUrl => case DbHost => case DbDatabase => case DbUsername => case DbPassword => case MailMailer => case MailHost => case MailPort => case MailUsername => case MailPassword => case MailEncryption => case MailFromAddress => case MailFromName => case MailReplytoAddress => case MailReplytoName => case LogSlackWebhookUrl => case LogSlackChannel => }
  }

  lemma KeyLogSlackChannel(b: Key)
    ensures Sed.IsPattern(Pattern(LogSlackChannel))
    ensures b != LogSlackChannel ==> !EndsWith(Pattern(LogSlackChannel), Pattern(b))
  {
    match b { case AppName => case AppEnv => case AppDebug => case AppUrl => case DbHost => case DbDatabase => case DbUsername => case DbPassword => case MailMailer => case MailHost => case MailPort => case MailUsername => case MailPassword => case MailEncryption => case MailFromAddress => case MailFromName => case MailReplytoAddress => case MailReplytoName => case LogSlackWebhookUrl => case LogSlackChannel => }
  }

  lemma PatternShape(k: Key)
    ensures Sed.IsPattern(Pattern(k))
  {
    match k
    case AppName => KeyAppName(k);
    case AppEnv => KeyAppEnv(k);
    case AppDebug => KeyAppDebug(k);
    case AppUrl => KeyAppUrl(k);
    case DbHost => KeyDbHost(k);
    case DbDatabase => KeyDbDatabase(k);
    case DbUsername => KeyDbUsername(k);
    case DbPassword => KeyDbPassword(k);
    case MailMailer => KeyMailMailer(k);
    case MailHost => KeyMailHost(k);
    case MailPort => KeyMailPort(k);
    case MailUsername => KeyMailUsername(k);
    case MailPassword => KeyMailPassword(k);
    case MailEncryption => KeyMailEncryption(k);
    case MailFromAddress => KeyMailFromAddress(k);
    case MailFromName => KeyMailFromName(k);
    case MailReplytoAddress => KeyMailReplytoAddress(k);
    case MailReplytoName => KeyMailReplytoName(k);
    case LogSlackWebhookUrl => KeyLogSlackWebhookUrl(k);
    case LogSlackChannel => KeyLogSlackChannel(k);
  }

  /** No key's pattern ends with another key's pattern. */
  lemma SuffixFree(a: Key, b: Key)
    requires a != b
    ensures !EndsWith(Pattern(a), Pattern(b))
  {
    match a
    case AppName => KeyAppName(b);
    case AppEnv => KeyAppEnv(b);
    case AppDebug => KeyAppDebug(b);
    case AppUrl => KeyAppUrl(b);
    case DbHost => KeyDbHost(b);
    case DbDatabase => KeyDbDatabase(b);
    case DbUsername => KeyDbUsername(b);
    case DbPassword => KeyDbPassword(b);
    case MailMailer => KeyMailMailer(b);
    case MailHost => KeyMailHost(b);
    case MailPort => KeyMailPort(b);
    case MailUsername => KeyMailUsername(b);
    case MailPassword => KeyMailPassword(b);
    case MailEncryption => KeyMailEncryption(b);
    case MailFromAddress => KeyMailFromAddress(b);
    case MailFromName => KeyMailFromName(b);
    case MailReplytoAddress => KeyMailReplytoAddress(b);
    case MailReplytoName => KeyMailReplytoName(b);
    case LogSlackWebhookUrl => KeyLogSlackWebhookUrl(b);
    case LogSlackChannel => KeyLogSlackChannel(b);
  }

  /** Position of each key in the script. */
  function Index(k: Key): nat
  {
    match k
    case AppName => 0
    case AppEnv => 1
    case AppDebug => 2
    case AppUrl => 3
    case DbHost => 4
    case DbDatabase => 5
    case DbUsername => 6
    case DbPassword => 7
    case MailMailer => 8
    case MailHost => 9
    case MailPort => 10
    case MailUsername => 11
    case MailPassword => 12
    case MailEncryption => 13
    case MailFromAddress => 14
    case MailFromName => 15
    case MailReplytoAddress => 16
    case MailReplytoName => 17
    case LogSlackWebhookUrl => 18
    case LogSlackChannel => 19
  }

  /** Every key has exactly one place in the script. */
  lemma OrderCoversKeys()
    ensures forall n :: 0 <= n < |Order| ==> Index(Order[n]) == n
    ensures forall k :: Index(k) < |Order| && Order[Index(k)] == k
  {
    forall n | 0 <= n < |Order|
      ensures Index(Order[n]) == n
    {
      assert n == 0 || n == 1 || n == 2 || n == 3 || n == 4 || n == 5 || n == 6 || n == 7 || n == 8 || n == 9 ||
        n == 10 || n == 11 || n == 12 || n == 13 || n == 14 || n == 15 || n == 16 || n == 17 || n == 18 || n == 19;
    }
    forall k: Key
      ensures Index(k) < |Order| && Order[Index(k)] == k
    {
      match k
      case AppName =>
      case AppEnv =>
      case AppDebug =>
      case AppUrl =>
      case DbHost =>
      case DbDatabase =>
      case DbUsername =>
      case DbPassword =>
      case MailMailer =>
      case MailHost =>
      case MailPort =>
      case MailUsername =>
      case MailPassword =>
      case MailEncryption =>
      case MailFromAddress =>
      case MailFromName =>
      case MailReplytoAddress =>
      case MailReplytoName =>
      case LogSlackWebhookUrl =>
      case LogSlackChannel =>
    }
  }

  /**
   * The script reaches `sed` as one double-quoted shell word, in which the
   * shell expands `$` and backquotes, a `"` ends the word and `\` escapes
   * the next character. Values without these characters reach `sed` as
   * they are.
   */
  predicate ShellSafe(c: Config.Config)
  {
    forall k, t :: 0 <= t < |Value(c, k)| ==>
      Value(c, k)[t] != '$' && Value(c, k)[t] != '`' && Value(c, k)[t] != '"' && Value(c, k)[t] != '\\'
  }

  /** No value of the configuration carries the text of a key pattern. */
  predicate Clean(c: Config.Config)
  {
    forall k, k' :: !Contains(Value(c, k), Pattern(k'))
  }

  /**
   * The script of a clean configuration is separated: its patterns are
   * assignment patterns, none ends with another, and no value holds one.
   */
  lemma ScriptSeparated(c: Config.Config)
    requires Clean(c)
    ensures Sed.Separated(Script(c))
  {
    var cs := Script(c);
    OrderCoversKeys();
    forall n | 0 <= n < |cs|
      ensures Sed.IsPattern(cs[n].pattern)
    {
      PatternShape(Order[n]);
    }
    forall a, b | 0 <= a < |cs| && 0 <= b < |cs| && a != b
      ensures !EndsWith(cs[a].pattern, cs[b].pattern)
    {
      SuffixFree(Order[a], Order[b]);
    }
  }

  /**
   * The rewrite of `.env`, line by line: a line in which no key occurs is
   * kept; otherwise the text before the leftmost key occurrence is kept,
   * and from there on the line is that key's assignment of its value.
   */
  lemma RewriteShape(lines: seq<string>, c: Config.Config, n: nat)
    requires n < |lines|
    ensures |Sed.RewriteLines(lines, Script(c))| == |lines|
    ensures (forall k :: !Contains(lines[n], Pattern(k))) ==> Sed.RewriteLines(lines, Script(c))[n] == lines[n]
    ensures Clean(c) && Sed.FirstMatch(lines[n], Script(c)).Some? ==>
      var (i, j) := Sed.FirstMatch(lines[n], Script(c)).value;
      Sed.RewriteLines(lines, Script(c))[n] == lines[n][..i] + Pattern(Order[j]) + Value(c, Order[j])
  {
    var cs := Script(c);
    if forall k :: !Contains(lines[n], Pattern(k)) {
      Sed.Unmatched(lines[n], cs);
    }
    if Clean(c) && Sed.FirstMatch(lines[n], cs).Some? {
      ScriptSeparated(c);
      var (i, j) := Sed.FirstMatch(lines[n], cs).value;
      Sed.FirstRewritten(lines[n], cs, i, j);
    }
  }

  /** A line that starts with a key's assignment becomes exactly that key and its value. */
  lemma AssignmentRewritten(line: string, c: Config.Config, k: Key)
    requires Clean(c) && StartsWith(line, Pattern(k))
    ensures Sed.Apply(line, Script(c)) == Pattern(k) + Value(c, k)
  {
    OrderCoversKeys();
    ScriptSeparated(c);
    Sed.StartRewritten(line, Script(c), Index(k));
  }

  /** Rewriting `.env` again with the same configuration changes nothing. */
  lemma RewriteIdempotent(lines: seq<string>, c: Config.Config)
    requires Clean(c)
    ensures Sed.RewriteLines(Sed.RewriteLines(lines, Script(c)), Script(c)) == Sed.RewriteLines(lines, Script(c))
  {
    ScriptSeparated(c);
    Sed.RewriteIdempotent(lines, Script(c));
  }
}
