# Envoy deploy script: a verified model

The repository deploys a Laravel application with one Envoy script, `Envoy.blade.php`. It has three parts:

- **`@setup`** reads the deployment configuration from a key/value environment. Twelve keys must be present and non-blank; the mail settings get fallbacks; the branch defaults to `main`. It also names the new release after the current time, formatted as `YmdHis`.
- **`deploy`** works in the target directory. It creates the directory if it is missing and clones the branch into a sub-directory named after the release. It then backs up the shared `.env` and replaces it with the release's `.env.example`, rewritten by a twenty-command `sed` script. Next it links the release's `.env` and `storage` to the shared ones; the release's own `storage` becomes the shared one on the first deploy. It switches the `current` link to the release. Last, it runs composer, the artisan commands and the PHP-FPM reload. `key:generate` runs only when `.env` holds no application key, and the category seeder only when the `categories` table is empty.
- **`cleanup`** lists the `20*` entries of the target directory, sorts them, and deletes all but the last three.

The model has these modules:

- `Config`: resolution of the environment into settings, or the error the script stops with.
- `ReleaseId`: the release identifier and its order.
- `Sed`: a script of literal-pattern substitutions `s%P.*%Pv%`, as a function and as the loop `sed` runs.
- `EnvRewrite`: the twenty commands of the script applied to `.env`.
- `Provisioning`: the gated command trace.
- `Retention`: what `sort | head -n -3` removes.
- `TargetDir`: the target directory as a class `Target`, with the methods `Deploy` and `Cleanup`.
- `Text` and `Wrappers`: string order, substring search, `Option` and `Result`.

The model follows the script as written, including what it does not do:

- `.env`, when it exists, is moved to `.env-<id>.bak`. It is then always replaced by the rewritten template, and nothing of the old `.env` is carried over.
- The application-key gate reads the fresh template. A key in the previous `.env` is therefore not reused.
- Cleanup does not protect the release `current` links to.
- Backups are never removed, because cleanup's `20*` pattern cannot match `.env-…`.

External effects become inputs or trace events:

- the clock becomes a `Timestamp`;
- the outcome of `git clone` is a `CloneResult` that carries the template and the bundled storage;
- the row count of the categories query is an integer;
- composer, artisan and `systemctl` are `Provisioning.Command` events.

## Model

| member | source | states |
|---|---|---|
| Config.Resolve | Envoy.blade.php:4-49 | Succeeds exactly when all twelve required keys are defined and not blank. Otherwise it reports every undefined key; if none is undefined, it reports every blank one. On success the branch is the given one, or `main`. |
| Config.ResolveRequired | Envoy.blade.php:20-35 | Each of the twelve required settings of an accepted configuration is the value the environment defines for its key. |
| Config.ResolveDefaults | Envoy.blade.php:25-49 | Every optional setting follows PHP's `??`: a defined key gives its value, even an empty one. An undefined key gives the fallback: `log`, `localhost` and `25` for the mail transport, null for the other nine. Without a branch option, the branch is `main`. |
| ReleaseId.Format | Envoy.blade.php:51 | The identifier is all digits and has at least 14 of them. |
| ReleaseId.FormatShape | Envoy.blade.php:51 | The identifier has exactly 14 characters exactly when the year is at most 9999. |
| ReleaseId.DecimalOrder | Envoy.blade.php:51 | Zero-padded fixed-width decimals compare as strings exactly as the numbers compare, and are equal exactly when the numbers are. |
| ReleaseId.DecimalLength | Envoy.blade.php:51 | Padding to `w` digits gives at least `w` digits, and exactly `w` precisely when the number is below `10^w`. |
| ReleaseId.FormatOrder | Envoy.blade.php:51 | For years up to 9999, identifiers compare lexicographically exactly as their timestamps compare chronologically. Distinct timestamps give distinct identifiers. |
| ReleaseId.CleanupPattern | Envoy.blade.php:166 | For years up to 9999, an identifier starts with `20` exactly when its year is between 2000 and 2099. |
| Text.Find | Envoy.blade.php:79-98 | Returns an occurrence of the pattern with none further left, or nothing exactly when the pattern does not occur. |
| Sed.Substitute | Envoy.blade.php:79-98 | A line in which a command's pattern does not occur is left unchanged by that command. |
| Sed.SubstituteLeftmost | Envoy.blade.php:79-98 | At the leftmost occurrence of its pattern, one command keeps the text before the occurrence and replaces the rest of the line by the pattern and the value. |
| Sed.RunSed | Envoy.blade.php:79-98 | The loop over the lines of the file, with each command applied in turn to each line, computes the rewrite of the file: one line out for each line in, each the script's result on it. |
| Sed.RunLine | Envoy.blade.php:79-98 | The loop over the commands of one line computes the script's result on that line. |
| Sed.FirstMatch | Envoy.blade.php:79-98 | Gives the leftmost position where some command's pattern occurs, with that command. Gives nothing exactly when no pattern occurs. |
| Sed.Unmatched | Envoy.blade.php:79-98 | A line in which no pattern occurs is left unchanged. |
| Sed.FirstRewritten | Envoy.blade.php:79-98 | In a separated script, a line is rewritten from its leftmost pattern occurrence to the end into that command's pattern and value. The text before the occurrence is kept. |
| Sed.StartRewritten | Envoy.blade.php:79-98 | In a separated script, a line that starts with a command's pattern becomes exactly that pattern followed by its value. |
| Sed.ApplyIdempotent | Envoy.blade.php:79-98 | Running a separated script over its own output changes nothing. |
| Sed.RewriteIdempotent | Envoy.blade.php:79-98 | Rewriting a file twice with a separated script is the same as rewriting it once. |
| EnvRewrite.OrderCoversKeys | Envoy.blade.php:79-98 | Each of the twenty keys appears in the script exactly once. |
| EnvRewrite.SuffixFree | Envoy.blade.php:79-98 | No key's `KEY=` text ends with another key's. |
| EnvRewrite.ScriptSeparated | Envoy.blade.php:79-98 | When no configured value contains a `KEY=` text, the script's patterns cannot interfere with each other or with the values. |
| EnvRewrite.RewriteShape | Envoy.blade.php:79-98 | Line count is preserved. A line with no recognised `KEY=` is unchanged. Otherwise the text before the leftmost one is kept, and the rest becomes that key's assignment. |
| EnvRewrite.AssignmentRewritten | Envoy.blade.php:79-98 | When no configured value contains a `KEY=` text, a template line that starts with `KEY=` becomes exactly `KEY=` followed by the configured value. |
| EnvRewrite.RewriteIdempotent | Envoy.blade.php:79-98 | When no configured value contains a `KEY=` text, rewriting an already rewritten `.env` with the same configuration changes nothing. |
| Provisioning.KeyLineCount | Envoy.blade.php:131 | The count is zero exactly when no line both begins with `APP_KEY=` and holds `base64:`. |
| Provisioning.Commands | Envoy.blade.php:125-161 | `key:generate` is run exactly when no `.env` line holds an application key. The seeder is run exactly when the row count is 0. Every ungated command is run. Everything is in the task's order. |
| Provisioning.OrderedOnce | Envoy.blade.php:125-161 | A trace in task order contains no command twice, and its earlier commands come earlier in the task. |
| Retention.Insert | Envoy.blade.php:166 | Inserting a new name into a sorted listing keeps it sorted and adds exactly that name. |
| Retention.Expired | Envoy.blade.php:166 | `head -n -3` passes a prefix of the sorted listing and holds back exactly its last three lines, or all of them when there are at most three. |
| Retention.ExpiredIsSplit | Envoy.blade.php:166 | Dropping the last three lines of the sorted listing leaves the removed names such that what is kept has size min(3, n). Every removed name also sorts before every kept one. |
| Retention.SplitByNewer | Envoy.blade.php:166 | A listed name is removed exactly when at least three listed names sort after it. |
| Retention.SplitUnique | Envoy.blade.php:166 | Only one set of removed names meets the retention condition. |
| Retention.SmallNothingExpires | Envoy.blade.php:166 | With at most three listed entries, nothing is removed. |
| Retention.CleanupIdempotent | Envoy.blade.php:166 | A second cleanup right after the first removes nothing. |
| TargetDir.FindSorted | Envoy.blade.php:166 | Collecting the `20*` names with `find` and sorting them gives a strictly sorted listing of exactly those names. |
| TargetDir.OnlyReleasesMatch | Envoy.blade.php:166 | `.env`, its backups, `storage` and `current` never match `20*`. |
| TargetDir.RemovalKeepsOthers | Envoy.blade.php:166 | Removing matching release directories removes exactly those names from the directory. |
| TargetDir.PruneSplit | Envoy.blade.php:166 | The names `head -n -3` passes on form the retention split of the listing. They are all release directories, and removing them removes only them. |
| TargetDir.ConsistentAfterRemoval | Envoy.blade.php:164-167 | Removing release directories keeps an existing target directory consistent. |
| TargetDir.Target.constructor | Envoy.blade.php:61-63 | Before the first deploy, the target directory does not exist and holds nothing. |
| TargetDir.Target.ListingIsReleases | Envoy.blade.php:166 | What cleanup lists is exactly the release directories whose names start with `20`. |
| TargetDir.Target.Deploy | Envoy.blade.php:57-162 | Aborts exactly when the clone fails or the release directory already exists, and then changes nothing but creating the directory. Otherwise: the release is added and no other release changes; `.env` is the rewritten template; a previous `.env` is kept as the release's backup; shared storage is created only when absent; `current` is the new release, after being briefly absent; the trace gains the gated commands. |
| TargetDir.Target.Install | Envoy.blade.php:70-162 | After a successful clone, the same new state as a successful deploy. |
| TargetDir.Target.Unpack | Envoy.blade.php:68-101 | The release directory holds its template and bundled storage, and its `.env` is linked. The shared `.env` is replaced and backed up. |
| TargetDir.Target.GoLive | Envoy.blade.php:103-161 | Storage is shared, `current` is switched, and the provisioning commands are appended to the trace. |
| TargetDir.Target.ReplaceEnv | Envoy.blade.php:70-98 | The new `.env` is the rewrite of the template, whatever the old one held. The old one becomes the backup for this release, when there was one. |
| TargetDir.Target.ShareStorage | Envoy.blade.php:103-115 | The bundled storage becomes the shared one only when none exists yet (with its ACL set). Otherwise the shared storage is untouched. Either way the release's storage becomes a link and its cache gets the ACL. |
| TargetDir.Target.Activate | Envoy.blade.php:117-123 | `current` becomes the new release. The link history records an absent `current` and then the new one. |
| TargetDir.Target.Provision | Envoy.blade.php:125-161 | The trace gains exactly the gated command sequence for the new `.env` and the row count. |
| TargetDir.Target.RunDeploy | Envoy.blade.php:4-162 | A rejected configuration stops the run with its error before anything on the server changes. For an accepted one, the outcome and the new state are those of the deploy task with the resolved settings: an abort exactly on a failed clone or an existing release directory, and otherwise the new release, `.env`, backup, storage, `current` and trace. |
| TargetDir.Target.RemoveAll | Envoy.blade.php:166 | `xargs rm -rf` removes exactly the listed release directories. |
| TargetDir.Target.AbsentIsEmpty | Envoy.blade.php:165 | A target directory that does not exist lists nothing. |
| TargetDir.Target.Cleanup | Envoy.blade.php:164-167 | The removed names are the retention split of the `20*` listing, so exactly the three greatest names survive. The directory loses those names and nothing else: `.env`, backups, `storage`, `current` and the trace are untouched. The release `current` links to is not protected. |
| TargetDir.Target.Prune | Envoy.blade.php:165-166 | In an existing directory, the sorted listing minus its last three lines is removed, and nothing else. |
| TargetDir.Target.RemoveReleases | Envoy.blade.php:166 | Removing release directories keeps the directory consistent and takes out exactly their names. |

## Left out

- TargetDir.Target.Deploy: requires `sed`-safe values (`Sed.SedSafe`): no configured value may contain `%`, `&`, `\` or a newline. With such a value the `sed` command would be malformed or would insert something else. It also requires shell-safe values (`EnvRewrite.ShellSafe`): no `$`, backquote, `"` or `\`. The whole `sed` script (lines 79-98) is one double-quoted word of the remote shell, which expands `$` and backquotes, ends the word at a `"` and treats a `\` as an escape. What the shell would write into `.env` for such values is not modelled.
- TargetDir.Target.RunDeploy: requires the same `sed`-safe and shell-safe values whenever the configuration resolves.
- TargetDir.Target.RunDeploy: takes the script's two spellings of the target directory to be one directory, and accepts any resolved `TARGET_DIR`. `mkdir -p {{ $dir }}` and `cd {{ $dir }}` (lines 61-65 and 165) are relative to the login directory. The clone, the `.env` link and the cache ACL (lines 68, 101 and 112) use `~/{{ $dir }}`. The two agree only for a plain path relative to the login directory, with no leading `/` or `~` and no blanks or glob characters, since `{{ $dir }}` is unquoted. For any other `TARGET_DIR`, such as `/srv/app`, the clone lands elsewhere and the following `cp` fails. The model does not capture that.
- TargetDir.Target.Deploy: models one target directory, so it holds only under the same reading of `TARGET_DIR` as a plain path relative to the login directory.
- TargetDir.Target.Install: requires the same `sed`-safe and shell-safe values.
- TargetDir.Target.Unpack: requires the same `sed`-safe and shell-safe values. Its `.env` is stated only for values the shell passes to `sed` unchanged.
- TargetDir.Target.ReplaceEnv: requires the same `sed`-safe and shell-safe values. Its `.env` is stated only for values the shell passes to `sed` unchanged.
- Sed.RunSed: requires `sed`-safe values, for the same reason.
- EnvRewrite.RewriteShape: the shape of a rewritten line that holds a key is proved only for configurations none of whose values contain a `KEY=` text (`Clean`). Without that, a later command can match inside an earlier command's value.
- ReleaseId.FormatOrder: holds for years up to 9999. From the year 10000 on, PHP's `Y` prints five digits and string order no longer follows time.
- The semantics of `git clone`, `composer`, `php artisan` (migrate, seeding, the caches, `key:generate`) and `systemctl reload`: they are external programs. The clone is an input, and the others are trace events.
- `key:generate` writing the key into `.env`: also an external program. The model's `.env` stays the rewritten template.
- `setfacl` (lines 106 and 112): permissions are reduced to one flag for the shared storage and one for each release's cache directory.
- The `mysql` query (line 142): it reads the database `makovec`, whose name is hard-coded. Only its row count enters, as an integer. A non-numeric result of the shell arithmetic is not modelled.
- Loading and parsing the `config` file (lines 4-7): this is library code. The resolved key/value map is the input.
- The `@servers` SSH transport, the `confirm` prompt, the progress `echo` lines and the Slack notification in `@finished` (line 171): these are transport and presentation. The text `{{ }}` inserts into the task's commands is taken to be the setting itself, so its effect on the `sed` command is covered by the two safety requirements above.
- Failure of any step other than the clone: the runner's exit-on-error behaviour is not visible in the script. A failed clone is assumed to abort the task before any later step, and an existing release directory with the same name counts as a failed clone.
- Sort order: `sort` is assumed to compare by character code (the C locale). Locale-dependent collation is not modelled.
- Cleanup in a missing target directory: the `cd` fails, and this is modelled as removing nothing.
- The clock: it is an input `Timestamp`, and no calendar validity beyond the field ranges is checked.
