/**
 * The provisioning commands the deploy task runs once the new release is
 * linked: composer, the artisan commands, and the PHP-FPM reload. Their
 * effect on the server is not modelled; each becomes one event in a trace.
 * Two of them are gated: `key:generate` on the absence of an application
 * key in `.env`, the category seeder on an empty categories table.
 */
module Provisioning {
  import opened Text

  datatype Command =
    | ComposerInstall
    | KeyGenerate
    | Migrate
    | SeedCategories
    | OptimizeClear
    | ConfigCache
    | RouteCache
    | ViewCache
    | ReloadFpm

  /** A line that both greps accept: it begins with `APP_KEY=` and holds `base64:`. */
  predicate KeyLine(line: string)
  {
    StartsWith(line, "APP_KEY=") && Contains(line, "base64:")
  }

  /** What `wc -l` counts at the end of the pipeline. */
  function KeyLineCount(lines: seq<string>): (n: nat)
    ensures n <= |lines|
    ensures n == 0 <==> forall i :: 0 <= i < |lines| ==> !KeyLine(lines[i])
  {
    if lines == [] then 0
    else
      assert forall i :: 0 < i < |lines| ==> lines[i] == lines[1..][i - 1];
      (if KeyLine(lines[0]) then 1 else 0) + KeyLineCount(lines[1..])
  }

  predicate Gated(c: Command)
  {
    c == KeyGenerate || c == SeedCategories
  }

  /** The place of each command in the deploy task. */
  function Rank(c: Command): nat
  {
    match c
    case ComposerInstall => 0
    case KeyGenerate => 1
    case Migrate => 2
    case SeedCategories => 3
    case OptimizeClear => 4
    case ConfigCache => 5
    case RouteCache => 6
    case ViewCache => 7
    case ReloadFpm => 8
  }

  /** Each command comes after the ones the task runs before it. */
  predicate InTaskOrder(r: seq<Command>)
  {
    forall i :: 0 < i < |r| ==> Rank(r[i - 1]) < Rank(r[i])
  }

  /**
   * The commands run against the rewritten `.env` and the row count the
   * categories query returned: every ungated command, `key:generate`
   * exactly when no line holds an application key, the seeder exactly
   * when the table is empty, all in the order of the task.
   */
  function Commands(env: seq<string>, categories: int): (r: seq<Command>)
    ensures KeyGenerate in r <==> forall i :: 0 <= i < |env| ==> !KeyLine(env[i])
    ensures SeedCategories in r <==> categories == 0
    ensures forall c :: !Gated(c) ==> c in r
    ensures InTaskOrder(r)
  {
    [ComposerInstall]
    + (if KeyLineCount(env) == 0 then [KeyGenerate] else [])
    + [Migrate]
    + (if categories == 0 then [SeedCategories] else [])
    + [OptimizeClear, ConfigCache, RouteCache, ViewCache, ReloadFpm]
  }

  /** A trace in task order runs no command twice, and its order is the task's. */
  lemma {:induction false} OrderedOnce(r: seq<Command>, i: nat, j: nat)
    requires InTaskOrder(r) && i < j < |r|
    ensures Rank(r[i]) < Rank(r[j])
    ensures r[i] != r[j]
    decreases j - i
  {
    if i + 1 < j {
      OrderedOnce(r, i, j - 1);
    }
  }
}
