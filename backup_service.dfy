/**
 * The backup service of the older Go layer (internal/services/backup_service.go):
 * creating an archive, listing archives newest first, pruning the oldest
 * beyond `max_backups`, the exclusion rule and the health checks.
 *
 * Archives are found with the glob "*.tar.gz" over the backups directory,
 * which matches directories too. The glob's own error (a malformed pattern
 * built from the directory path), the clock, the archive writer, the glob
 * matcher of the exclusion rule, `os.MkdirAll` and the files whose `os.Stat`
 * fails after sorting are parameters. The human-readable size and date
 * strings of a listing are not modelled.
 */
module BackupService {
  import opened Results
  import opened Text
  import opened FileSystem
  import opened Ordering
  import Domain
  import BackupPolicy
  import CraftopsConfig
  import ModService
  import Backup

  const DryRunArchive: string := "dry-run-backup.tar.gz"

  // ----------------------------------------------------------------- listing

  /** `BackupInfo`, with the modification time and the byte size kept as numbers. */
  datatype BackupInfo = BackupInfo(name: string, path: string, createdAt: int, sizeBytes: int)

  function CreatedAt(b: BackupInfo): int {
    b.createdAt
  }

  function MTime(e: Entry): int {
    e.mtime
  }

  /** Sorting by `Age` newest-last is sorting by time oldest-first. */
  function Age(e: Entry): int {
    -e.mtime
  }

  function Info(dir: string, e: Entry): BackupInfo {
    BackupInfo(e.name, dir + "/" + e.name, e.mtime, e.size)
  }

  /** The entries the glob "*.tar.gz" returns: files and directories whose name ends in ".tar.gz". */
  function Globbed(entries: seq<Entry>): (r: seq<Entry>)
    ensures forall e :: e in r <==> e in entries && HasSuffix(e.name, Backup.Ext)
  {
    if entries == [] then []
    else
      var init := entries[..|entries| - 1];
      var e := entries[|entries| - 1];
      assert entries == init + [e];
      if HasSuffix(e.name, Backup.Ext) then Globbed(init) + [e] else Globbed(init)
  }

  /** The loop of `ListBackups`: each file whose `os.Stat` succeeds, described, in order. */
  function Described(dir: string, files: seq<Entry>, vanished: set<string>): (r: seq<BackupInfo>)
    ensures forall b :: b in r ==> exists e :: e in files && e.name !in vanished && b == Info(dir, e)
  {
    if files == [] then []
    else
      var init := files[..|files| - 1];
      var e := files[|files| - 1];
      assert files == init + [e];
      if e.name in vanished then Described(dir, init, vanished)
      else Described(dir, init, vanished) + [Info(dir, e)]
  }

  lemma {:induction false} DescribedAppend(dir: string, s: seq<Entry>, t: seq<Entry>, vanished: set<string>)
    ensures Described(dir, s + t, vanished) == Described(dir, s, vanished) + Described(dir, t, vanished)
    decreases |t|
  {
    if t == [] {
      assert s + t == s;
    } else {
      var init := t[..|t| - 1];
      assert (s + t)[..|s + t| - 1] == s + init;
      DescribedAppend(dir, s, init, vanished);
    }
  }

  lemma RemoveOne(init: seq<Entry>, x: Entry, left: seq<Entry>, right: seq<Entry>)
    requires multiset(init + [x]) == multiset(left + [x] + right)
    ensures multiset(init) == multiset(left + right)
  {
    assert multiset(init + [x]) == multiset(init) + multiset{x};
    assert multiset(left + [x] + right) == multiset(left) + multiset{x} + multiset(right);
    assert multiset(left + right) == multiset(left) + multiset(right);
    assert multiset(init) == multiset(init + [x]) - multiset{x};
    assert multiset(left + right) == multiset(left + [x] + right) - multiset{x};
  }

  /** Describing two orderings of the same files gives the same descriptions. */
  lemma {:induction false} DescribedPermutes(dir: string, s: seq<Entry>, t: seq<Entry>, vanished: set<string>)
    requires multiset(s) == multiset(t)
    ensures multiset(Described(dir, s, vanished)) == multiset(Described(dir, t, vanished))
    decreases |s|
  {
    if s != [] {
      var x := s[|s| - 1];
      var init := s[..|s| - 1];
      assert s == init + [x];
      assert x in multiset(t);
      var k :| 0 <= k < |t| && t[k] == x;
      var rest := t[..k] + t[k + 1..];
      assert t == t[..k] + [x] + t[k + 1..];
      RemoveOne(init, x, t[..k], t[k + 1..]);
      DescribedPermutes(dir, init, rest, vanished);
      DescribedAppend(dir, init, [x], vanished);
      DescribedAppend(dir, t[..k], [x], vanished);
      DescribedAppend(dir, t[..k] + [x], t[k + 1..], vanished);
      DescribedAppend(dir, t[..k], t[k + 1..], vanished);
    } else {
      assert t == [];
    }
  }

  /** Dropping vanished files keeps a newest-first order. */
  lemma {:induction false} DescribedDescending(dir: string, s: seq<Entry>, vanished: set<string>)
    requires Descending(s, MTime)
    ensures Descending(Described(dir, s, vanished), CreatedAt)
    decreases |s|
  {
    if s != [] {
      var init := s[..|s| - 1];
      var x := s[|s| - 1];
      assert Descending(init, MTime) by {
        forall p, q | 0 <= p < q < |init| ensures MTime(init[p]) >= MTime(init[q]) {
          assert init[p] == s[p] && init[q] == s[q];
        }
      }
      DescribedDescending(dir, init, vanished);
      var front := Described(dir, init, vanished);
      forall b | b in front ensures b.createdAt >= x.mtime {
        var e :| e in init && e.name !in vanished && b == Info(dir, e);
        var p :| 0 <= p < |init| && init[p] == e;
        assert MTime(s[p]) >= MTime(s[|s| - 1]);
      }
      if x.name !in vanished {
        var r := front + [Info(dir, x)];
        forall p, q | 0 <= p < q < |r| ensures CreatedAt(r[p]) >= CreatedAt(r[q]) {
          if q < |front| {
            assert r[p] == front[p] && r[q] == front[q];
          } else {
            assert r[p] in front;
          }
        }
      }
    }
  }

  /**
   * `ListBackups`: the globbed archives sorted newest first, then described,
   * skipping any whose `os.Stat` fails; never nil, even for a missing directory.
   */
  method ListBackups(d: Directory, dir: string, globError: Option<string>, vanished: set<string>)
    returns (r: Result<seq<BackupInfo>, string>)
    ensures globError.Some? ==> r == Err("failed to list backup files: " + globError.value)
    ensures globError.None? ==>
      r.Ok? && Descending(r.value, CreatedAt)
      && multiset(r.value) == multiset(Described(dir, Globbed(d.entries), vanished))
  {
    if globError.Some? {
      return Err("failed to list backup files: " + globError.value);
    }
    var files := Globbed(d.entries);
    var a := new Entry[|files|](k requires 0 <= k < |files| => files[k]);
    assert a[..] == files;
    SortInPlaceDescending(a, MTime);
    var backups: seq<BackupInfo> := [];
    for i := 0 to a.Length
      invariant backups == Described(dir, a[..i], vanished)
    {
      assert a[..i + 1][..i] == a[..i];
      var f := a[i];
      if f.name in vanished {
        continue;
      }
      backups := backups + [Info(dir, f)];
    }
    assert a[..a.Length] == a[..];
    DescribedPermutes(dir, a[..], files, vanished);
    DescribedDescending(dir, a[..], vanished);
    return Ok(backups);
  }

  // ----------------------------------------------------------------- pruning

  function EntryNames(es: seq<Entry>): (r: seq<string>)
    ensures |r| == |es| && forall i :: 0 <= i < |es| ==> r[i] == es[i].name
  {
    seq(|es|, i requires 0 <= i < |es| => es[i].name)
  }

  lemma EntryNamesStep(es: seq<Entry>, i: int)
    requires 0 <= i < |es|
    ensures EntryNames(es[..i + 1]) == EntryNames(es[..i]) + [es[i].name]
  {
  }

  lemma AgeIsOldestFirst(s: seq<Entry>)
    requires Descending(s, Age)
    ensures Ascending(s, MTime)
  {
    forall p, q | 0 <= p < q < |s| ensures MTime(s[p]) <= MTime(s[q]) {
      assert Age(s[p]) >= Age(s[q]);
    }
  }

  /**
   * `cleanupOldBackups`: glob, sort oldest first, and when there are more
   * than `maxBackups` try to remove the first `len - maxBackups`. A negative
   * limit makes `files[:len(files)-maxBackups]` run past the end and panic.
   */
  method CleanupOldBackups(d: Directory, globError: Option<string>, maxBackups: int)
    returns (p: Backup.Pruning, files: seq<Entry>)
    modifies d
    ensures globError.Some? <==> p.ListFailed?
    ensures globError.Some? ==> p == Backup.ListFailed(globError.value)
    ensures globError.None? ==>
      Ascending(files, MTime) && multiset(files) == multiset(Globbed(old(d.entries)))
    ensures !p.ListFailed? ==> (p == Backup.WithinLimit <==> |files| <= maxBackups)
    ensures !p.ListFailed? ==> (p == Backup.SliceOutOfRange <==> maxBackups < 0)
    ensures p.Pruned? ==> 0 <= maxBackups < |files| && p.attempted == EntryNames(files[..|files| - maxBackups])
    ensures d.entries == if p.Pruned? then Removals(old(d.entries), old(d.locked), p.attempted) else old(d.entries)
    ensures d.locked == old(d.locked)
  {
    if globError.Some? {
      return Backup.ListFailed(globError.value), [];
    }
    var globbed := Globbed(d.entries);
    var a := new Entry[|globbed|](k requires 0 <= k < |globbed| => globbed[k]);
    assert a[..] == globbed;
    SortInPlaceDescending(a, Age);
    files := a[..];
    AgeIsOldestFirst(files);
    if |files| <= maxBackups {
      return Backup.WithinLimit, files;
    }
    if maxBackups < 0 {
      return Backup.SliceOutOfRange, files;
    }
    var doomed := |files| - maxBackups;
    var attempted: seq<string> := [];
    for i := 0 to doomed
      invariant attempted == EntryNames(files[..i])
      invariant d.entries == Removals(old(d.entries), old(d.locked), attempted)
      invariant d.locked == old(d.locked)
    {
      RemovalsStep(old(d.entries), old(d.locked), attempted, files[i].name);
      EntryNamesStep(files, i);
      var _ := d.Remove(files[i].name);
      attempted := attempted + [files[i].name];
    }
    return Backup.Pruned(attempted), files;
  }

  /** A prune attempts only the oldest: none attempted is newer than one kept. */
  lemma PruneTakesOldest(files: seq<Entry>, maxBackups: nat)
    requires Ascending(files, MTime) && maxBackups <= |files|
    ensures forall x, k :: x in files[..|files| - maxBackups] && k in files[|files| - maxBackups..] ==> x.mtime <= k.mtime
  {
    var cut := |files| - maxBackups;
    forall x, k | x in files[..cut] && k in files[cut..] ensures x.mtime <= k.mtime {
      var i :| 0 <= i < cut && files[i] == x;
      var j :| 0 <= j < |files| - cut && files[cut..][j] == k;
      assert MTime(files[i]) <= MTime(files[cut + j]);
    }
  }

  // --------------------------------------------------------------- exclusion

  /** Go `strings.TrimSuffix`. */
  function TrimSuffix(s: string, suffix: string): (r: string)
    ensures HasSuffix(s, suffix) ==> r + suffix == s
    ensures !HasSuffix(s, suffix) ==> r == s
  {
    if HasSuffix(s, suffix) then s[..|s| - |suffix|] else s
  }

  /** The rule `shouldExclude` implements; `matches` is `filepath.Match`, a malformed pattern matching nothing. */
  predicate Excluded(relPath: string, includeLogs: bool, patterns: seq<string>, matches: (string, string) -> bool) {
    (!includeLogs && Contains(relPath, "logs"))
    || exists p :: p in patterns && (matches(p, ModService.Base(relPath)) || Contains(relPath, TrimSuffix(p, "/")))
  }

  /** `shouldExclude`: the logs test, then each pattern against the base name and as a substring. */
  method ShouldExclude(relPath: string, includeLogs: bool, patterns: seq<string>, matches: (string, string) -> bool)
    returns (excluded: bool)
    ensures excluded == Excluded(relPath, includeLogs, patterns, matches)
  {
    if !includeLogs && Contains(relPath, "logs") {
      return true;
    }
    for i := 0 to |patterns|
      invariant forall j :: 0 <= j < i ==>
        !matches(patterns[j], ModService.Base(relPath)) && !Contains(relPath, TrimSuffix(patterns[j], "/"))
    {
      if matches(patterns[i], ModService.Base(relPath)) {
        assert patterns[i] in patterns;
        return true;
      }
      if Contains(relPath, TrimSuffix(patterns[i], "/")) {
        assert patterns[i] in patterns;
        return true;
      }
    }
    return false;
  }

  /** A pattern that trims to nothing ("" or "/") is a substring of every path, so it excludes everything. */
  lemma EmptyPatternExcludesAll(relPath: string, includeLogs: bool, patterns: seq<string>, matches: (string, string) -> bool)
    requires "" in patterns || "/" in patterns
    ensures Excluded(relPath, includeLogs, patterns, matches)
  {
    assert OccursAt(relPath, "", 0);
    assert TrimSuffix("/", "/") == "";
  }

  /**
   * The older logs rule is a substring test: it drops "blogs/post.txt" and
   * "world/catalogs.dat", which the newer rule keeps.
   */
  lemma LogsRuleIsSubstring(matches: (string, string) -> bool)
    ensures Excluded("blogs/post.txt", false, [], matches) && !Backup.Excluded("blogs/post.txt", false, false, [], matches)
    ensures Excluded("world/catalogs.dat", false, [], matches)
    ensures !Backup.Excluded("world/catalogs.dat", false, false, [], matches)
  {
    assert OccursAt("blogs/post.txt", "logs", 1);
    assert OccursAt("world/catalogs.dat", "logs", 10);
    assert "blogs/post.txt"[..5][0] != "logs/"[0];
    assert "world/catalogs.dat"[..5][0] != "logs/"[0];
  }

  // ---------------------------------------------------------------- creation

  /** How writing the archive ends once the file and the writers exist; `Written(0)` also stands for a failed `os.Stat`. */
  datatype Writing = WalkFailed(err: string) | Written(size: nat)

  /**
   * What `os.Stat` says of the server directory. Only a does-not-exist error
   * stops `CreateBackup`; any other stat error lets it go on.
   */
  datatype ServerStat = ServerMissing | ServerUnreadable(err: string) | ServerFound

  /** Everything `CreateBackup` consults besides the configuration. */
  datatype Host = Host(
    server: ServerStat, serverDir: string, backupsDir: string, mkdir: Option<string>,
    clock: BackupPolicy.DateTime, now: int, createError: Option<string>, writing: Writing,
    globError: Option<string>)

  /** Backups are on, this is no dry run, the server path is not known to be missing and the backups directory could be made. */
  predicate Ready(backup: CraftopsConfig.BackupConfig, dryRun: bool, host: Host) {
    backup.enabled && !dryRun && !host.server.ServerMissing? && host.mkdir.None?
  }

  /** The error `gzip.NewWriterLevel` returns for a level outside -2..9. */
  function LevelError(level: int): string {
    "failed to create gzip writer: gzip: invalid compression level: " + IntToString(level)
  }

  /** What `CreateBackup` returns once it is `Ready`. */
  function Written(backup: CraftopsConfig.BackupConfig, host: Host): (r: Result<string, string>)
    requires BackupPolicy.ValidTime(host.clock)
    ensures r.Ok? <==>
      (host.createError.None? && Backup.GzipAccepts(backup.compressionLevel) && host.writing.Written? && host.writing.size > 0)
    ensures r.Ok? ==> r.value == host.backupsDir + "/" + Backup.ArchiveName(host.clock)
  {
    if host.createError.Some? then Err("failed to create backup file: " + host.createError.value)
    else if !Backup.GzipAccepts(backup.compressionLevel) then Err(LevelError(backup.compressionLevel))
    else match host.writing
      case WalkFailed(e) => Err("failed to create backup: " + e)
      case Written(size) =>
        if size == 0 then Err("backup file was not created or is empty")
        else Ok(host.backupsDir + "/" + Backup.ArchiveName(host.clock))
  }

  /**
   * The part of `CreateBackup` from `os.Create` to the size check: the file
   * is created empty and written; when the walk fails or the file ends up
   * empty it is removed again (the removal's own error is ignored), and the
   * error is returned.
   */
  method WriteFile(d: Directory, name: string, now: int, writing: Writing) returns (failure: Option<string>)
    modifies d
    ensures failure.None? <==> writing.Written? && writing.size > 0
    ensures writing.WalkFailed? ==> failure == Some("failed to create backup: " + writing.err)
    ensures writing == Writing.Written(0) ==> failure == Some("backup file was not created or is empty")
    ensures failure.None? ==> d.entries == Without(old(d.entries), name) + [Entry(name, false, writing.size, now)]
    ensures failure.Some? ==>
      d.entries == if name in old(d.locked) then Without(old(d.entries), name) + [Entry(name, false, 0, now)]
                   else Without(old(d.entries), name)
    ensures d.locked == old(d.locked)
  {
    d.Store(name, 0, now);
    ghost var rest := Without(old(d.entries), name);
    WithoutAppend(rest, [Entry(name, false, 0, now)], name);
    WithoutAbsent(rest, name);
    match writing {
      case WalkFailed(e) =>
        var _ := d.Remove(name);
        return Some("failed to create backup: " + e);
      case Written(size) =>
        if size == 0 {
          var _ := d.Remove(name);
          return Some("backup file was not created or is empty");
        }
        d.Store(name, size, now);
        return None;
    }
  }

  /**
   * `CreateBackup`: the guards in order; then create the file, set up the
   * writers, walk the server directory, check the size and prune. A walk
   * failure or an empty archive removes the file; a rejected gzip level
   * returns with the empty file still in place.
   */
  method CreateBackup(backup: CraftopsConfig.BackupConfig, dryRun: bool, host: Host, d: Directory)
    returns (r: Result<string, string>, pruning: Option<Backup.Pruning>)
    requires BackupPolicy.ValidTime(host.clock)
    modifies d
    ensures !backup.enabled ==> r == Ok("")
    ensures backup.enabled && dryRun ==> r == Ok(DryRunArchive)
    ensures backup.enabled && !dryRun && host.server.ServerMissing? ==>
      r == Err("server directory not found: " + host.serverDir)
    ensures backup.enabled && !dryRun && !host.server.ServerMissing? && host.mkdir.Some? ==>
      r == Err("failed to create backup directory: " + host.mkdir.value)
    ensures Ready(backup, dryRun, host) ==> r == Written(backup, host)
    ensures pruning.Some? <==> Ready(backup, dryRun, host) && r.Ok?
    ensures !Ready(backup, dryRun, host) || host.createError.Some? ==> d.entries == old(d.entries)
    ensures var name := Backup.ArchiveName(host.clock);
      Ready(backup, dryRun, host) && host.createError.None? && !Backup.GzipAccepts(backup.compressionLevel) ==>
      d.entries == Without(old(d.entries), name) + [Entry(name, false, 0, host.now)]
    ensures var name := Backup.ArchiveName(host.clock);
      Ready(backup, dryRun, host) && host.createError.None? && Backup.GzipAccepts(backup.compressionLevel) && r.Err? ==>
      d.entries == if name in old(d.locked) then Without(old(d.entries), name) + [Entry(name, false, 0, host.now)]
                   else Without(old(d.entries), name)
    ensures var name := Backup.ArchiveName(host.clock);
      Ready(backup, dryRun, host) && r.Ok? ==>
      var stored := Without(old(d.entries), name) + [Entry(name, false, host.writing.size, host.now)];
      d.entries == if pruning.value.Pruned? then Removals(stored, old(d.locked), pruning.value.attempted) else stored
    ensures d.locked == old(d.locked)
  {
    if !backup.enabled {
      return Ok(""), None;
    }
    if dryRun {
      return Ok(DryRunArchive), None;
    }
    if host.server.ServerMissing? {
      return Err("server directory not found: " + host.serverDir), None;
    }
    if host.mkdir.Some? {
      return Err("failed to create backup directory: " + host.mkdir.value), None;
    }
    var name := Backup.ArchiveName(host.clock);
    if host.createError.Some? {
      return Err("failed to create backup file: " + host.createError.value), None;
    }
    if !Backup.GzipAccepts(backup.compressionLevel) {
      d.Store(name, 0, host.now);
      return Err(LevelError(backup.compressionLevel)), None;
    }
    var failure := WriteFile(d, name, host.now, host.writing);
    if failure.Some? {
      return Err(failure.value), None;
    }
    var p, _ := CleanupOldBackups(d, host.globError, backup.maxBackups);
    return Ok(host.backupsDir + "/" + name), Some(p);
  }

  /**
   * A rejected compression level leaves an empty archive behind that the
   * glob of every later listing and prune picks up as a backup.
   */
  lemma RejectedLevelLeavesEmptyArchive(entries: seq<Entry>, t: BackupPolicy.DateTime, now: int)
    requires BackupPolicy.ValidTime(t)
    ensures var name := Backup.ArchiveName(t);
      Entry(name, false, 0, now) in Globbed(Without(entries, name) + [Entry(name, false, 0, now)])
  {
  }

  // ------------------------------------------------------------------ health

  function CountText(count: nat): string {
    "OK (" + NatToString(count) + " backups found)"
  }

  /**
   * `HealthCheck`: the directory with its archive count (zero when the glob
   * fails), whether backups are on, and whether the directory can be created.
   */
  function Health(backups: Domain.PathStat, entries: seq<Entry>, globOk: bool, enabled: bool, maxBackups: int, mkdir: Option<string>)
    : (r: seq<ModService.HealthCheck>)
    ensures |r| == 3
    ensures r[0].name == "Backup directory" && r[1].name == "Backup configuration" && r[2].name == "Backup storage"
    ensures r[0].status == ModService.Passed <==> backups == Domain.Dir
    ensures r[0].status == ModService.Passed ==> r[0].message == CountText(if globOk then |Globbed(entries)| else 0)
    ensures r[1].status == ModService.Passed <==> enabled
    ensures r[2].status == ModService.Passed <==> mkdir.None?
    ensures forall c :: c in r ==> c.status in {ModService.Passed, ModService.Broken, ModService.Warned}
  {
    var count := if globOk then |Globbed(entries)| else 0;
    var dir := if backups == Domain.Dir then ModService.HealthCheck("Backup directory", ModService.Passed, CountText(count))
      else ModService.HealthCheck("Backup directory", ModService.Broken, "Directory not found");
    var conf := if enabled then ModService.HealthCheck("Backup configuration", ModService.Passed, "Enabled (max: " + IntToString(maxBackups) + ")")
      else ModService.HealthCheck("Backup configuration", ModService.Warned, "Disabled");
    var storage := if mkdir.None? then ModService.HealthCheck("Backup storage", ModService.Passed, "Accessible")
      else ModService.HealthCheck("Backup storage", ModService.Broken, "Error: " + mkdir.value);
    [dir, conf, storage]
  }

  /**
   * The older checks pass with a limit of zero, which the newer service
   * reports as an invalid retention setting.
   */
  lemma OlderHealthIgnoresRetention(entries: seq<Entry>)
    ensures forall c :: c in Health(Domain.Dir, entries, true, true, 0, None) ==> c.status == ModService.Passed
    ensures Backup.Health(true, Domain.Dir, 0)[1].status == Domain.StatusWarn
  {
  }
}
