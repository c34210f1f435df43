/**
 * The deploy target: the directory on the server that holds one
 * sub-directory per release, the shared `.env` with its backups, the shared
 * `storage`, and the `current` link. The deploy task adds a release and
 * switches `current` to it; the cleanup task removes old releases.
 */
module TargetDir {
  import opened Wrappers
  import opened Text
  import Config
  import ReleaseId
  import EnvRewrite
  import Sed
  import Provisioning
  import Retention

  type Lines = seq<string>

  /** A storage tree: relative path to file contents. */
  type Contents = map<string, Lines>

  /** What a release directory holds under the name `storage`. */
  datatype StorageSlot = Bundled(contents: Contents) | NoStorage | LinkedToShared

  /**
   * A release directory: the `.env.example` it was cloned with, whether its
   * `.env` links to the shared one, its `storage`, and whether the web
   * server group has been granted `bootstrap/cache`.
   */
  datatype Release = Release(example: Lines, envLinked: bool, storage: StorageSlot, cacheAcl: bool)

  /** What `git clone` gives: nothing, or the template and the bundled storage. */
  datatype CloneResult = CloneFailed | Cloned(example: Lines, storage: Contents)

  datatype Outcome = Aborted | Deployed(id: string)

  /** The name the previous `.env` is moved to. */
  function BackupName(id: string): string
  {
    ".env-" + id + ".bak"
  }

  /** A release as the deploy task leaves it. */
  predicate Installed(r: Release)
  {
    r.envLinked && r.storage == LinkedToShared && r.cacheAcl
  }

  /** The release directory the deploy task leaves behind. */
  function InstalledRelease(example: Lines): (r: Release)
    ensures Installed(r) && r.example == example
  {
    Release(example, true, LinkedToShared, true)
  }

  /** The names a target directory with these contents holds. */
  function Names(releases: map<string, Release>, env: Option<Lines>, backups: map<string, Lines>,
                 storage: Option<Contents>, current: Option<string>): set<string>
  {
    releases.Keys
    + (if env.Some? then {".env"} else {})
    + (set id | id in backups :: BackupName(id))
    + (if storage.Some? then {"storage"} else {})
    + (if current.Some? then {"current"} else {})
  }

  /** What `find . -maxdepth 1 -name "20*"` lists among `names`. */
  function Matching(names: set<string>): set<string>
  {
    set e | e in names && StartsWith(e, "20")
  }

  /**
   * Only release directories can match `20*`: the shared `.env`, its
   * backups, `storage` and `current` start with other characters.
   */
  lemma OnlyReleasesMatch(releases: map<string, Release>, env: Option<Lines>, backups: map<string, Lines>,
                          storage: Option<Contents>, current: Option<string>, e: string)
    requires e in Names(releases, env, backups, storage, current) && e !in releases
    ensures !StartsWith(e, "20")
  {
    if e != ".env" && e != "storage" && e != "current" {
      var id :| id in backups && e == BackupName(id);
      assert e[0] == '.';
    }
    FirstCharDiffers(e, "20");
  }

  /** Removing matching release directories removes those names and no others. */
  lemma RemovalKeepsOthers(releases: map<string, Release>, env: Option<Lines>, backups: map<string, Lines>,
                           storage: Option<Contents>, current: Option<string>, removed: set<string>)
    requires removed <= releases.Keys
    requires forall e :: e in removed ==> StartsWith(e, "20")
    ensures Names(releases - removed, env, backups, storage, current)
         == Names(releases, env, backups, storage, current) - removed
  {
    var before := Names(releases, env, backups, storage, current);
    var after := Names(releases - removed, env, backups, storage, current);
    forall e | e in before && e !in removed
      ensures e in after
    {
      if e !in releases {
        OnlyReleasesMatch(releases, env, backups, storage, current, e);
      }
    }
    forall e | e in removed && e in after
      ensures false
    {
      OnlyReleasesMatch(releases - removed, env, backups, storage, current, e);
    }
  }

  /** Taking keys out of a map keeps the values of the others. */
  lemma Shrink(m: map<string, Release>, s: set<string>)
    ensures forall k :: k in m - s ==> k in m && (m - s)[k] == m[k]
    ensures m - s != map[] ==> m != map[]
  {
    if m - s != map[] {
      var k :| k in m - s;
      assert k in m;
    }
  }

  lemma UpdateTwice(m: map<string, Release>, k: string, a: Release, b: Release)
    ensures m[k := a][k := b] == m[k := b]
  {
  }

  /**
   * The names that sorting and `head -n -3` pick out of the listing: a
   * retention split of it, and release directories only, so that removing
   * them takes out those names and no others.
   */
  lemma PruneSplit(releases: map<string, Release>, env: Option<Lines>, backups: map<string, Lines>,
                   storage: Option<Contents>, current: Option<string>, sorted: seq<string>)
    requires Retention.Sorted(sorted)
    requires Retention.Elems(sorted) == Matching(Names(releases, env, backups, storage, current))
    ensures Retention.RetentionSplit(Retention.Elems(sorted), Retention.Elems(Retention.Expired(sorted)))
    ensures Retention.Elems(Retention.Expired(sorted)) <= releases.Keys
    ensures Names(releases - Retention.Elems(Retention.Expired(sorted)), env, backups, storage, current)
         == Names(releases, env, backups, storage, current) - Retention.Elems(Retention.Expired(sorted))
  {
    var removed := Retention.Elems(Retention.Expired(sorted));
    Retention.ExpiredIsSplit(sorted);
    assert removed <= Retention.Elems(sorted);
    forall e | e in removed
      ensures e in releases && StartsWith(e, "20")
    {
      if e !in releases {
        OnlyReleasesMatch(releases, env, backups, storage, current, e);
      }
    }
    RemovalKeepsOthers(releases, env, backups, storage, current, removed);
  }

  /** `find . -maxdepth 1 -name "20*" | sort` over the names in a directory. */
  method FindSorted(names: set<string>) returns (sorted: seq<string>)
    ensures Retention.Sorted(sorted) && Retention.Elems(sorted) == Matching(names)
  {
    var pending := names;
    sorted := [];
    while pending != {}
      invariant pending <= names
      invariant Retention.Sorted(sorted)
      invariant Retention.Elems(sorted) == Matching(names - pending)
      decreases |pending|
    {
      var e :| e in pending;
      assert names - (pending - {e}) == (names - pending) + {e};
      if StartsWith(e, "20") {
        assert e !in Retention.Elems(sorted);
        sorted := Retention.Insert(e, sorted);
      }
      pending := pending - {e};
    }
  }

  /**
   * A target directory as the tasks leave it: nothing in it while it does
   * not exist, every release installed under a timestamp name, the shared
   * `.env` and `storage` in place once there is a release, and the group
   * ACL set on the shared `storage`.
   */
  predicate Consistent(present: bool, releases: map<string, Release>, env: Option<Lines>, backups: map<string, Lines>,
                       storage: Option<Contents>, storageAcl: bool, current: Option<string>)
  {
    && (!present ==> releases == map[] && env.None? && backups == map[] && storage.None? && current.None?)
    && (forall id :: id in releases ==> Installed(releases[id]) && ReleaseId.IsDigits(id))
    && (releases != map[] ==> env.Some? && storage.Some?)
    && (storage.Some? ==> storageAcl)
  }

  /** Removing releases from an existing directory keeps it consistent. */
  lemma ConsistentAfterRemoval(present: bool, releases: map<string, Release>, env: Option<Lines>, backups: map<string, Lines>,
                               storage: Option<Contents>, storageAcl: bool, current: Option<string>, removed: set<string>)
    requires present && Consistent(present, releases, env, backups, storage, storageAcl, current)
    ensures Consistent(present, releases - removed, env, backups, storage, storageAcl, current)
  {
    Shrink(releases, removed);
  }

  class Target {
    /** Whether the directory exists. */
    var present: bool
    var releases: map<string, Release>
    /** The shared `.env`. */
    var env: Option<Lines>
    /** `.env-<id>.bak`, by release id. */
    var backups: map<string, Lines>
    /** The shared `storage`, and whether its group ACL has been set. */
    var storage: Option<Contents>
    var storageAcl: bool
    /** The release `current` links to. */
    var current: Option<string>
    /** The provisioning commands run so far. */
    var trace: seq<Provisioning.Command>
    /** Every value `current` has taken, in order. */
    ghost var links: seq<Option<string>>

    predicate Valid()
      reads this
    {
      Consistent(present, releases, env, backups, storage, storageAcl, current)
    }

    /** The names in the directory. */
    function Entries(): set<string>
      reads this
    {
      Names(releases, env, backups, storage, current)
    }

    /** What `find . -maxdepth 1 -name "20*"` lists. */
    function Listing(): set<string>
      reads this
    {
      Matching(Entries())
    }

    /** No directory yet: the first deploy creates it. */
    constructor()
      ensures Valid() && !present && trace == [] && links == []
    {
      present := false;
      releases := map[];
      env := None;
      backups := map[];
      storage := None;
      storageAcl := false;
      current := None;
      trace := [];
      links := [];
    }

    /** The listing holds release directories only. */
    lemma ListingIsReleases()
      ensures Listing() == set id | id in releases && StartsWith(id, "20")
    {
      forall e | e in Entries() && e !in releases
        ensures !StartsWith(e, "20")
      {
        OnlyReleasesMatch(releases, env, backups, storage, current, e);
      }
    }

    /**
     * The deploy task. The directory is created if it is missing; then the
     * release is cloned into the directory named by the timestamp, which
     * fails when the clone does or when that directory already exists.
     * Otherwise the old `.env` is backed up and replaced with the rewritten
     * template, the release's `.env` and `storage` are linked to the shared
     * ones (the bundled storage becomes the shared one only on the first
     * deploy), `current` is switched to the release, and the provisioning
     * commands run.
     */
    method Deploy(cfg: Config.Config, when: ReleaseId.Timestamp, clone: CloneResult, categories: int)
      returns (outcome: Outcome)
      requires Valid() && ReleaseId.Valid(when)
      requires Sed.SedSafe(EnvRewrite.Script(cfg)) && EnvRewrite.ShellSafe(cfg)
      modifies this
      ensures Valid() && present
      ensures outcome.Aborted? <==> clone.CloneFailed? || ReleaseId.Format(when) in old(releases)
      ensures outcome.Aborted? ==>
        && releases == old(releases) && env == old(env) && backups == old(backups)
        && storage == old(storage) && storageAcl == old(storageAcl) && current == old(current)
        && trace == old(trace) && links == old(links)
      ensures outcome.Deployed? ==>
        && outcome.id == ReleaseId.Format(when)
        && releases == old(releases)[outcome.id := InstalledRelease(clone.example)]
        && env == Some(Sed.RewriteLines(clone.example, EnvRewrite.Script(cfg)))
        && backups == (if old(env).Some? then old(backups)[outcome.id := old(env).value] else old(backups))
        && storage == (if old(storage).Some? then old(storage) else Some(clone.storage))
        && current == Some(outcome.id)
        && links == old(links) + [None, Some(outcome.id)]
        && trace == old(trace) + Provisioning.Commands(env.value, categories)
    {
      // mkdir -p, cd
      present := true;
      var id := ReleaseId.Format(when);
      ReleaseId.FormatShape(when);
      // git clone
      if clone.CloneFailed? || id in releases {
        return Aborted;
      }
      Install(id, clone.example, clone.storage, cfg, categories);
      outcome := Deployed(id);
    }

    /** The deploy task once the clone has succeeded. */
    method Install(id: string, example: Lines, bundled: Contents, cfg: Config.Config, categories: int)
      requires Sed.SedSafe(EnvRewrite.Script(cfg)) && EnvRewrite.ShellSafe(cfg)
      modifies this`releases, this`env, this`backups, this`storage, this`storageAcl, this`current, this`links, this`trace
      ensures releases == old(releases)[id := InstalledRelease(example)]
      ensures env == Some(Sed.RewriteLines(example, EnvRewrite.Script(cfg)))
      ensures backups == (if old(env).Some? then old(backups)[id := old(env).value] else old(backups))
      ensures storage == (if old(storage).Some? then old(storage) else Some(bundled))
      ensures storageAcl == (old(storage).None? || old(storageAcl))
      ensures current == Some(id)
      ensures links == old(links) + [None, Some(id)]
      ensures trace == old(trace) + Provisioning.Commands(env.value, categories)
    {
      Unpack(id, example, bundled, cfg);
      ghost var unpacked := releases;
      GoLive(id, categories);
      UpdateTwice(old(releases), id, unpacked[id], InstalledRelease(example));
    }

    /** The unpacked release gets the shared storage, goes live, and is provisioned. */
    method GoLive(id: string, categories: int)
      requires id in releases && releases[id].storage.Bundled? && env.Some?
      modifies this`storage, this`storageAcl, this`releases, this`current, this`links, this`trace
      ensures storage == if old(storage).Some? then old(storage) else Some(old(releases)[id].storage.contents)
      ensures storageAcl == (old(storage).None? || old(storageAcl))
      ensures releases == old(releases)[id := old(releases)[id].(storage := LinkedToShared, cacheAcl := true)]
      ensures current == Some(id)
      ensures links == old(links) + [None, Some(id)]
      ensures trace == old(trace) + Provisioning.Commands(env.value, categories)
    {
      ShareStorage(id);
      Activate(id);
      Provision(categories);
    }

    /**
     * The cloned release with its template and bundled storage, the shared
     * `.env` replaced, and `ln -s ../.env <id>/.env`.
     */
    method Unpack(id: string, example: Lines, bundled: Contents, cfg: Config.Config)
      requires Sed.SedSafe(EnvRewrite.Script(cfg)) && EnvRewrite.ShellSafe(cfg)
      modifies this`releases, this`env, this`backups
      ensures releases == old(releases)[id := Release(example, true, Bundled(bundled), false)]
      ensures env == Some(Sed.RewriteLines(example, EnvRewrite.Script(cfg)))
      ensures backups == (if old(env).Some? then old(backups)[id := old(env).value] else old(backups))
    {
      ghost var before := releases;
      releases := releases[id := Release(example, false, Bundled(bundled), false)];
      ReplaceEnv(id, example, cfg);
      releases := releases[id := releases[id].(envLinked := true)];
      UpdateTwice(before, id, Release(example, false, Bundled(bundled), false), Release(example, true, Bundled(bundled), false));
    }

    /**
     * `mv .env .env-<id>.bak` when there is a `.env`, then `cp` of the
     * template and `sed -i`: the new `.env` is the rewritten template,
     * whatever the old one held, and the old one is kept as the backup.
     */
    method ReplaceEnv(id: string, example: Lines, cfg: Config.Config)
      requires Sed.SedSafe(EnvRewrite.Script(cfg)) && EnvRewrite.ShellSafe(cfg)
      modifies this`env, this`backups
      ensures env == Some(Sed.RewriteLines(example, EnvRewrite.Script(cfg)))
      ensures backups == if old(env).Some? then old(backups)[id := old(env).value] else old(backups)
    {
      if env.Some? {
        backups := backups[id := env.value];
        env := None;
      }
      env := Some(example);
      var rewritten := Sed.RunSed(env.value, EnvRewrite.Script(cfg));
      env := Some(rewritten);
    }

    /**
     * The release's bundled storage becomes the shared one when there is
     * none yet (with the group ACL set), and is deleted otherwise; then
     * `bootstrap/cache` gets its ACL and the release's `storage` links to
     * the shared one.
     */
    method ShareStorage(id: string)
      requires id in releases && releases[id].storage.Bundled?
      modifies this`storage, this`storageAcl, this`releases
      ensures storage == if old(storage).Some? then old(storage) else Some(old(releases)[id].storage.contents)
      ensures storageAcl == (old(storage).None? || old(storageAcl))
      ensures releases == old(releases)[id := old(releases)[id].(storage := LinkedToShared, cacheAcl := true)]
    {
      var bundled := releases[id].storage.contents;
      if storage.None? {
        storage := Some(bundled);
        storageAcl := true;
      }
      releases := releases[id := releases[id].(storage := NoStorage)];
      releases := releases[id := releases[id].(cacheAcl := true)];
      releases := releases[id := releases[id].(storage := LinkedToShared)];
    }

    /** `rm current` when it is a link, then `ln -s <id> current`. */
    method Activate(id: string)
      modifies this`current, this`links
      ensures current == Some(id)
      ensures links == old(links) + [None, Some(id)]
    {
      if current.Some? {
        current := None;
      }
      links := links + [current];
      current := Some(id);
      links := links + [current];
    }

    /** The provisioning commands, gated on `.env` and on the categories row count. */
    method Provision(categories: int)
      requires env.Some?
      modifies this`trace
      ensures trace == old(trace) + Provisioning.Commands(env.value, categories)
    {
      trace := trace + [Provisioning.ComposerInstall];
      // grep '^APP_KEY=' .env | grep 'base64:' | wc -l
      if Provisioning.KeyLineCount(env.value) == 0 {
        trace := trace + [Provisioning.KeyGenerate];
      }
      trace := trace + [Provisioning.Migrate];
      if categories == 0 {
        trace := trace + [Provisioning.SeedCategories];
      }
      trace := trace + [Provisioning.OptimizeClear, Provisioning.ConfigCache, Provisioning.RouteCache,
                        Provisioning.ViewCache, Provisioning.ReloadFpm];
    }

    /**
     * The deploy task run with its configuration: when the configuration is
     * rejected, nothing on the server is touched.
     */
    method RunDeploy(vars: Config.Env, branch: Option<string>, when: ReleaseId.Timestamp, clone: CloneResult, categories: int)
      returns (r: Result<Outcome, Config.ConfigError>)
      requires Valid() && ReleaseId.Valid(when)
      requires Config.Resolve(vars, branch).Ok? ==>
        var cfg := Config.Resolve(vars, branch).value;
        Sed.SedSafe(EnvRewrite.Script(cfg)) && EnvRewrite.ShellSafe(cfg)
      modifies this
      ensures Valid()
      ensures Config.Resolve(vars, branch).Err? ==> r == Err(Config.Resolve(vars, branch).error) && unchanged(this)
      ensures Config.Resolve(vars, branch).Ok? ==> r.Ok? && present
      ensures Config.Resolve(vars, branch).Ok? ==>
        var cfg, id := Config.Resolve(vars, branch).value, ReleaseId.Format(when);
        && (r.value.Aborted? <==> clone.CloneFailed? || id in old(releases))
        && (r.value.Aborted? ==>
          && releases == old(releases) && env == old(env) && backups == old(backups)
          && storage == old(storage) && storageAcl == old(storageAcl) && current == old(current)
          && trace == old(trace) && links == old(links))
        && (r.value.Deployed? ==>
          && r.value.id == id
          && releases == old(releases)[id := InstalledRelease(clone.example)]
          && env == Some(Sed.RewriteLines(clone.example, EnvRewrite.Script(cfg)))
          && backups == (if old(env).Some? then old(backups)[id := old(env).value] else old(backups))
          && storage == (if old(storage).Some? then old(storage) else Some(clone.storage))
          && current == Some(id)
          && links == old(links) + [None, Some(id)]
          && trace == old(trace) + Provisioning.Commands(env.value, categories))
    {
      match Config.Resolve(vars, branch) {
        case Err(e) =>
          r := Err(e);
        case Ok(cfg) =>
          var outcome := Deploy(cfg, when, clone, categories);
          r := Ok(outcome);
      }
    }

    /** `xargs rm -rf`: each listed release directory is removed. */
    method RemoveAll(doomed: seq<string>)
      modifies this`releases
      ensures releases == old(releases) - Retention.Elems(doomed)
    {
      var i := 0;
      while i < |doomed|
        invariant 0 <= i <= |doomed|
        invariant releases == old(releases) - Retention.Elems(doomed[..i])
      {
        assert Retention.Elems(doomed[..i + 1]) == Retention.Elems(doomed[..i]) + {doomed[i]};
        releases := releases - {doomed[i]};
        i := i + 1;
      }
      assert doomed[..i] == doomed;
    }

    /** An absent directory lists nothing. */
    lemma AbsentIsEmpty()
      requires Valid() && !present
      ensures Entries() == {} && Listing() == {}
    {
      assert (set id | id in backups :: BackupName(id)) == {};
    }

    /**
     * The cleanup task: list the `20*` entries, sort them, and remove all
     * but the last three. Nothing else in the directory changes; in
     * particular the release `current` links to is not protected.
     */
    method Cleanup() returns (removed: set<string>)
      requires Valid()
      modifies this`releases
      ensures Valid()
      ensures Retention.RetentionSplit(old(Listing()), removed)
      ensures releases == old(releases) - removed
      ensures Entries() == old(Entries()) - removed
    {
      if !present {
        // `cd` fails: nothing is removed
        AbsentIsEmpty();
        assert releases - {} == releases;
        return {};
      }
      removed := Prune();
    }

    /** Cleanup in an existing directory: sort the listing, drop the last three, remove the rest. */
    method Prune() returns (removed: set<string>)
      requires Valid() && present
      modifies this`releases
      ensures Valid()
      ensures Retention.RetentionSplit(old(Listing()), removed)
      ensures releases == old(releases) - removed
      ensures Entries() == old(Entries()) - removed
    {
      var sorted := FindSorted(Entries());
      var doomed := Retention.Expired(sorted);
      removed := Retention.Elems(doomed);
      PruneSplit(releases, env, backups, storage, current, sorted);
      RemoveReleases(doomed);
    }

    /** `xargs rm -rf` on release directories: only their names go. */
    method RemoveReleases(doomed: seq<string>)
      requires Valid() && present
      requires Names(releases - Retention.Elems(doomed), env, backups, storage, current)
            == Entries() - Retention.Elems(doomed)
      modifies this`releases
      ensures Valid()
      ensures releases == old(releases) - Retention.Elems(doomed)
      ensures Entries() == old(Entries()) - Retention.Elems(doomed)
    {
      ConsistentAfterRemoval(present, releases, env, backups, storage, storageAcl, current, Retention.Elems(doomed));
      RemoveAll(doomed);
    }
  }
}
