/**
 * The backup service of the newer Go layer (internal/service/backup.go):
 * creating a compressed archive of the server directory, listing archives
 * newest first, pruning the oldest beyond `max_backups`, the exclusion rule
 * applied while archiving, and the health checks.
 *
 * The backups directory is a `FileSystem.Directory` the methods change in
 * place. The clock, the archive writer (its outcome and size), the glob
 * matcher of the exclusion rule, `os.MkdirAll` and the entries whose
 * `Info()` fails are parameters. A path joined into the backups directory is
 * written `dir + "/" + name`.
 */
module Backup {
  import opened Results
  import opened Text
  import opened Domain
  import opened FileSystem
  import opened Ordering
  import BackupPolicy
  import CraftopsConfig

  const ErrBackupsDisabled: string := "backups are disabled"
  const DryRunArchive: string := "dry-run-backup.tar.gz"
  const Prefix: string := "minecraft_backup_"
  const Ext: string := ".tar.gz"

  // ------------------------------------------------------------ archive name

  /** Go's layout "20060102_150405": year, month, day, '_', hour, minute, second. */
  function Stamp(t: BackupPolicy.DateTime): (r: string)
    requires BackupPolicy.ValidTime(t)
    ensures |r| == 15
  {
    BackupPolicy.Padded(t.year, 4) + (BackupPolicy.Padded(t.month, 2) + (BackupPolicy.Padded(t.day, 2) + ("_"
    + (BackupPolicy.Padded(t.hour, 2) + (BackupPolicy.Padded(t.minute, 2) + BackupPolicy.Padded(t.second, 2))))))
  }

  /** The file name `createArchive` writes. */
  function ArchiveName(t: BackupPolicy.DateTime): (r: string)
    requires BackupPolicy.ValidTime(t)
    ensures HasPrefix(r, Prefix) && HasSuffix(r, Ext)
    ensures |r| == |Prefix| + 15 + |Ext|
  {
    var r := Prefix + Stamp(t) + Ext;
    assert r[..|Prefix|] == Prefix;
    assert r[|r| - |Ext|..] == Ext;
    r
  }

  lemma StrftimeDirective(fmt: string, t: BackupPolicy.DateTime)
    requires BackupPolicy.ValidTime(t) && |fmt| >= 2 && fmt[0] == '%' && fmt[1] in "YmdHMS"
    ensures BackupPolicy.Strftime(fmt, t) == BackupPolicy.Field(fmt[1], t) + BackupPolicy.Strftime(fmt[2..], t)
  {
  }

  lemma StrftimeLiteral(fmt: string, t: BackupPolicy.DateTime)
    requires BackupPolicy.ValidTime(t) && |fmt| >= 1 && fmt[0] != '%'
    ensures BackupPolicy.Strftime(fmt, t) == [fmt[0]] + BackupPolicy.Strftime(fmt[1..], t)
  {
  }

  lemma TimeOfDayIsStrftime(t: BackupPolicy.DateTime)
    requires BackupPolicy.ValidTime(t)
    ensures BackupPolicy.Strftime("%H%M%S", t)
      == BackupPolicy.Padded(t.hour, 2) + (BackupPolicy.Padded(t.minute, 2) + BackupPolicy.Padded(t.second, 2))
  {
    var f4 := "%H%M%S";
    var f5, f6 := f4[2..], f4[4..];
    assert f4[1] == 'H' && f5[1] == 'M' && f6[1] == 'S';
    assert f5[2..] == f6 && f6[2..] == [];
    var sec := BackupPolicy.Padded(t.second, 2);
    StrftimeDirective(f6, t);
    assert BackupPolicy.Strftime(f6, t) == sec by { assert sec + [] == sec; }
    StrftimeDirective(f5, t);
    StrftimeDirective(f4, t);
  }

  lemma DateIsStrftime(t: BackupPolicy.DateTime, rest: string)
    requires BackupPolicy.ValidTime(t)
    ensures BackupPolicy.Strftime("%Y%m%d" + rest, t)
      == BackupPolicy.Padded(t.year, 4) + (BackupPolicy.Padded(t.month, 2) + (BackupPolicy.Padded(t.day, 2)
         + BackupPolicy.Strftime(rest, t)))
  {
    var f0 := "%Y%m%d" + rest;
    var f1, f2 := f0[2..], f0[4..];
    assert f0[1] == 'Y' && f1[1] == 'm' && f2[1] == 'd';
    assert f1[2..] == f2 && f2[2..] == rest;
    StrftimeDirective(f2, t);
    StrftimeDirective(f1, t);
    StrftimeDirective(f0, t);
  }

  lemma SeparatorIsStrftime(t: BackupPolicy.DateTime)
    requires BackupPolicy.ValidTime(t)
    ensures BackupPolicy.Strftime("_%H%M%S", t) == "_" + BackupPolicy.Strftime("%H%M%S", t)
  {
    var tail := "_%H%M%S";
    assert tail[0] == '_' && tail[1..] == "%H%M%S";
    StrftimeLiteral(tail, t);
  }

  lemma DefaultFormatParts()
    ensures BackupPolicy.DefaultNameFormat == "%Y%m%d" + "_%H%M%S"
  {
  }

  /** The Go layout writes the same stamp as the Python default format "%Y%m%d_%H%M%S". */
  lemma StampIsStrftime(t: BackupPolicy.DateTime)
    requires BackupPolicy.ValidTime(t)
    ensures Stamp(t) == BackupPolicy.Strftime(BackupPolicy.DefaultNameFormat, t)
  {
    TimeOfDayIsStrftime(t);
    SeparatorIsStrftime(t);
    DateIsStrftime(t, "_%H%M%S");
    DefaultFormatParts();
  }

  function Pow10(k: nat): (r: nat)
    ensures r >= 1
  {
    if k == 0 then 1 else 10 * Pow10(k - 1)
  }

  /** A zero-padded field reads back as the number it was written from. */
  lemma {:induction false} PaddedValue(n: nat, width: nat)
    requires n < Pow10(width)
    ensures DigitsValue(BackupPolicy.Padded(n, width)) == n
  {
    if width > 0 {
      var front := BackupPolicy.Padded(n / 10, width - 1);
      var s := front + [DigitChar(n % 10)];
      assert s == BackupPolicy.Padded(n, width);
      PaddedValue(n / 10, width - 1);
      assert s[..|s| - 1] == front;
    }
  }

  /** Backups made at different valid times get different names. */
  lemma ArchiveNameInjective(t: BackupPolicy.DateTime, u: BackupPolicy.DateTime)
    requires BackupPolicy.ValidTime(t) && BackupPolicy.ValidTime(u)
    requires ArchiveName(t) == ArchiveName(u)
    ensures t == u
  {
    var a, b := Stamp(t), Stamp(u);
    assert a == ArchiveName(t)[|Prefix|..|Prefix| + 15];
    assert b == ArchiveName(u)[|Prefix|..|Prefix| + 15];
    assert a[0..4] == BackupPolicy.Padded(t.year, 4) && b[0..4] == BackupPolicy.Padded(u.year, 4);
    assert a[4..6] == BackupPolicy.Padded(t.month, 2) && b[4..6] == BackupPolicy.Padded(u.month, 2);
    assert a[6..8] == BackupPolicy.Padded(t.day, 2) && b[6..8] == BackupPolicy.Padded(u.day, 2);
    assert a[9..11] == BackupPolicy.Padded(t.hour, 2) && b[9..11] == BackupPolicy.Padded(u.hour, 2);
    assert a[11..13] == BackupPolicy.Padded(t.minute, 2) && b[11..13] == BackupPolicy.Padded(u.minute, 2);
    assert a[13..15] == BackupPolicy.Padded(t.second, 2) && b[13..15] == BackupPolicy.Padded(u.second, 2);
    assert Pow10(2) == 100 && Pow10(4) == 10000;
    PaddedValue(t.year, 4); PaddedValue(u.year, 4);
    PaddedValue(t.month, 2); PaddedValue(u.month, 2);
    PaddedValue(t.day, 2); PaddedValue(u.day, 2);
    PaddedValue(t.hour, 2); PaddedValue(u.hour, 2);
    PaddedValue(t.minute, 2); PaddedValue(u.minute, 2);
    PaddedValue(t.second, 2); PaddedValue(u.second, 2);
  }

  // -------------------------------------------------------- compression level

  const NoCompression: int := 0
  const BestCompression: int := 9
  const DefaultCompression: int := -1
  const HuffmanOnly: int := -2

  /** The levels `gzip.NewWriterLevel` accepts without an error. */
  predicate GzipAccepts(level: int) {
    HuffmanOnly <= level <= BestCompression
  }

  /** The configured level, or the default one when it is outside 0..9. */
  function GzipLevel(level: int): (r: int)
    ensures NoCompression <= level <= BestCompression ==> r == level
    ensures r != level ==> r == DefaultCompression
    ensures GzipAccepts(r)
  {
    if level < NoCompression || level > BestCompression then DefaultCompression else level
  }

  // ------------------------------------------------------------------ health

  /** `checkRetention`: a limit below one is reported as a warning. */
  function Retention(maxBackups: int): (r: HealthCheck)
    ensures r.name == "Backup retention"
    ensures r.status == StatusOK <==> maxBackups >= 1
    ensures r.status != StatusOK ==> r == HealthCheck("Backup retention", StatusWarn, "Invalid max_backups")
    ensures r.status == StatusOK ==> HasPrefix(r.message, "Keeping ") && HasSuffix(r.message, " backups")
  {
    if maxBackups <= 0 then HealthCheck("Backup retention", StatusWarn, "Invalid max_backups")
    else
      var m := "Keeping " + IntToString(maxBackups) + " backups";
      assert m[..8] == "Keeping ";
      assert m[|m| - 8..] == " backups";
      HealthCheck("Backup retention", StatusOK, m)
  }

  /** The retention message reads back as the configured limit. */
  lemma RetentionStatesLimit(maxBackups: int)
    requires maxBackups >= 1
    ensures var m := Retention(maxBackups).message;
      ParseInt(m[8..|m| - 8]) == Some(maxBackups)
  {
    var m := Retention(maxBackups).message;
    assert m[8..|m| - 8] == IntToString(maxBackups);
    ParseIntOfIntToString(maxBackups);
  }

  /** `HealthCheck`: one warning when backups are off, else the directory and the retention limit. */
  function Health(enabled: bool, backups: PathStat, maxBackups: int): (r: seq<HealthCheck>)
    ensures !enabled ==> r == [HealthCheck("Backup system", StatusWarn, "Disabled")]
    ensures enabled ==> |r| == 2 && r[0] == CheckPath("Backup directory", backups) && r[1] == Retention(maxBackups)
    ensures (forall c :: c in r ==> c.status == StatusOK) <==> enabled && backups == Dir && maxBackups >= 1
  {
    if !enabled then [HealthCheck("Backup system", StatusWarn, "Disabled")]
    else [CheckPath("Backup directory", backups), Retention(maxBackups)]
  }

  // --------------------------------------------------------------- exclusion

  /** The path given to the patterns besides `relPath`: directories get a trailing '/'. */
  function MatchPath(relPath: string, isDir: bool): (r: string)
    ensures isDir ==> HasSuffix(r, "/")
    ensures !isDir ==> r == relPath
    ensures r == relPath || r == relPath + "/"
  {
    if isDir && !HasSuffix(relPath, "/") then
      assert (relPath + "/")[|relPath|..] == "/";
      relPath + "/"
    else relPath
  }

  /** The server's own logs directory and everything under it. */
  predicate InLogs(relPath: string) {
    relPath == "logs" || HasPrefix(relPath, "logs/")
  }

  /** The rule `shouldExclude` implements; `matches` is the glob matcher, a failed match counting as none. */
  predicate Excluded(relPath: string, isDir: bool, includeLogs: bool, patterns: seq<string>, matches: (string, string) -> bool) {
    (!includeLogs && InLogs(relPath))
    || exists p :: p in patterns && (matches(p, MatchPath(relPath, isDir)) || matches(p, relPath))
  }

  /** `shouldExclude`: the logs test, then each pattern against the directory form and the plain path. */
  method ShouldExclude(relPath: string, isDir: bool, includeLogs: bool, patterns: seq<string>, matches: (string, string) -> bool)
    returns (excluded: bool)
    ensures excluded == Excluded(relPath, isDir, includeLogs, patterns, matches)
  {
    if !includeLogs && (relPath == "logs" || HasPrefix(relPath, "logs/")) {
      return true;
    }
    var matchPath := relPath;
    if isDir && !HasSuffix(matchPath, "/") {
      matchPath := matchPath + "/";
    }
    for i := 0 to |patterns|
      invariant forall j :: 0 <= j < i ==> !matches(patterns[j], matchPath) && !matches(patterns[j], relPath)
    {
      if matches(patterns[i], matchPath) || matches(patterns[i], relPath) {
        assert patterns[i] in patterns;
        return true;
      }
    }
    return false;
  }

  /** Only the directory itself and paths below it count as logs: "blogs" and "logs2" do not. */
  lemma LogsRuleIsExact()
    ensures InLogs("logs") && InLogs("logs/latest.log")
    ensures !InLogs("blogs") && !InLogs("logs2") && !InLogs("world/logs")
  {
    assert "logs/latest.log"[..5] == "logs/";
    assert "logs2"[4] != "logs/"[4];
    assert "world/logs"[0] != "logs/"[0];
  }

  /** With no patterns, only the logs rule excludes anything. */
  lemma NoPatternsOnlyLogs(relPath: string, isDir: bool, includeLogs: bool, matches: (string, string) -> bool)
    ensures Excluded(relPath, isDir, includeLogs, [], matches) <==> !includeLogs && InLogs(relPath)
  {
  }

  // ----------------------------------------------------------------- listing

  /** `domain.BackupInfo`. */
  datatype BackupInfo = BackupInfo(name: string, path: string, createdAt: int, size: int)

  function CreatedAt(b: BackupInfo): int {
    b.createdAt
  }

  /** What `os.ReadDir` makes of the backups directory. */
  datatype Access = Readable | NotExist | Unreadable(err: string)

  /** An entry `List` reports: a regular file ending in ".tar.gz" whose `Info()` succeeds. */
  predicate Eligible(e: Entry, vanished: set<string>) {
    !e.isDir && HasSuffix(e.name, Ext) && e.name !in vanished
  }

  function Info(dir: string, e: Entry): BackupInfo {
    BackupInfo(e.name, dir + "/" + e.name, e.mtime, e.size)
  }

  /** The archives `List` collects, in directory order, before sorting. */
  function Collected(dir: string, entries: seq<Entry>, vanished: set<string>): (r: seq<BackupInfo>)
    ensures forall b :: b in r ==> exists e :: e in entries && Eligible(e, vanished) && b == Info(dir, e)
    ensures forall e :: e in entries && Eligible(e, vanished) ==> Info(dir, e) in r
  {
    if entries == [] then []
    else
      var init := entries[..|entries| - 1];
      var e := entries[|entries| - 1];
      assert entries == init + [e];
      if Eligible(e, vanished) then Collected(dir, init, vanished) + [Info(dir, e)]
      else Collected(dir, init, vanished)
  }

  /** `List`: the eligible archives, newest first; a missing directory lists nothing. */
  method List(d: Directory, dir: string, access: Access, vanished: set<string>) returns (r: Result<seq<BackupInfo>, string>)
    ensures access == NotExist ==> r == Ok([])
    ensures access.Unreadable? ==> r == Err("failed to list backups: " + access.err)
    ensures access == Readable ==>
      r.Ok? && Descending(r.value, CreatedAt) && multiset(r.value) == multiset(Collected(dir, d.entries, vanished))
  {
    match access {
      case NotExist => return Ok([]);
      case Unreadable(e) => return Err("failed to list backups: " + e);
      case Readable =>
    }
    var entries := d.entries;
    var backups: seq<BackupInfo> := [];
    for i := 0 to |entries|
      invariant backups == Collected(dir, entries[..i], vanished)
    {
      assert entries[..i + 1][..i] == entries[..i];
      var e := entries[i];
      if e.isDir || !HasSuffix(e.name, Ext) {
        continue;
      }
      if e.name in vanished {
        continue;
      }
      backups := backups + [Info(dir, e)];
    }
    assert entries[..|entries|] == entries;
    var a := new BackupInfo[|backups|](k requires 0 <= k < |backups| => backups[k]);
    assert a[..] == backups;
    SortInPlaceDescending(a, CreatedAt);
    return Ok(a[..]);
  }

  // ----------------------------------------------------------------- pruning

  function Names(bs: seq<BackupInfo>): (r: seq<string>)
    ensures |r| == |bs| && forall i :: 0 <= i < |bs| ==> r[i] == bs[i].name
  {
    seq(|bs|, i requires 0 <= i < |bs| => bs[i].name)
  }

  lemma NamesStep(bs: seq<BackupInfo>, from: int, i: int)
    requires 0 <= from <= i < |bs|
    ensures Names(bs[from..i + 1]) == Names(bs[from..i]) + [bs[i].name]
  {
  }

  /**
   * What `cleanup` did. `SliceOutOfRange` is the run-time panic of
   * `backups[max_backups:]` for a negative limit, which ends the program.
   */
  datatype Pruning = ListFailed(err: string) | WithinLimit | SliceOutOfRange | Pruned(attempted: seq<string>)

  /**
   * `cleanup`: list the archives newest first and try to remove every one
   * from index `maxBackups` on; a removal that fails is skipped.
   */
  method Cleanup(d: Directory, dir: string, access: Access, vanished: set<string>, maxBackups: int)
    returns (p: Pruning, listed: seq<BackupInfo>)
    modifies d
    ensures access.Unreadable? <==> p.ListFailed?
    ensures access.Unreadable? ==> p == ListFailed("failed to list backups: " + access.err)
    ensures access == NotExist ==> listed == []
    ensures access == Readable ==>
      Descending(listed, CreatedAt) && multiset(listed) == multiset(Collected(dir, old(d.entries), vanished))
    ensures !p.ListFailed? ==> (p == WithinLimit <==> |listed| <= maxBackups)
    ensures !p.ListFailed? ==> (p == SliceOutOfRange <==> maxBackups < 0)
    ensures p.Pruned? ==> 0 <= maxBackups < |listed| && p.attempted == Names(listed[maxBackups..])
    ensures d.entries == if p.Pruned? then Removals(old(d.entries), old(d.locked), p.attempted) else old(d.entries)
    ensures d.locked == old(d.locked)
  {
    var r := List(d, dir, access, vanished);
    if r.Err? {
      return ListFailed(r.error), [];
    }
    listed := r.value;
    if |listed| <= maxBackups {
      return WithinLimit, listed;
    }
    if maxBackups < 0 {
      return SliceOutOfRange, listed;
    }
    var attempted: seq<string> := [];
    var i := maxBackups;
    while i < |listed|
      invariant maxBackups <= i <= |listed|
      invariant attempted == Names(listed[maxBackups..i])
      invariant d.entries == Removals(old(d.entries), old(d.locked), attempted)
      invariant d.locked == old(d.locked)
    {
      RemovalsStep(old(d.entries), old(d.locked), attempted, listed[i].name);
      NamesStep(listed, maxBackups, i);
      var _ := d.Remove(listed[i].name);
      attempted := attempted + [listed[i].name];
      i := i + 1;
    }
    assert listed[maxBackups..i] == listed[maxBackups..];
    return Pruned(attempted), listed;
  }

  /** After a prune the kept archives are the newest: none kept is older than one attempted. */
  lemma PruneKeepsNewest(listed: seq<BackupInfo>, maxBackups: nat)
    requires Descending(listed, CreatedAt) && maxBackups <= |listed|
    ensures forall k, x :: k in listed[..maxBackups] && x in listed[maxBackups..] ==> k.createdAt >= x.createdAt
  {
    forall k, x | k in listed[..maxBackups] && x in listed[maxBackups..] ensures k.createdAt >= x.createdAt {
      var i :| 0 <= i < maxBackups && listed[i] == k;
      var j :| 0 <= j < |listed| - maxBackups && listed[maxBackups..][j] == x;
      assert CreatedAt(listed[i]) >= CreatedAt(listed[maxBackups + j]);
    }
  }

  // ---------------------------------------------------------------- creation

  /** How writing the archive ends; `Written(0)` also stands for a failed `os.Stat`. */
  datatype Archiving =
    | CreateFailed(err: string)
    | WalkFailed(err: string)
    | TarCloseFailed(err: string)
    | GzipCloseFailed(err: string)
    | FileCloseFailed(err: string)
    | Written(size: nat)

  predicate ArchiveOk(a: Archiving) {
    a.Written? && a.size > 0
  }

  function ArchiveError(a: Archiving): string
    requires !ArchiveOk(a)
  {
    match a
    case CreateFailed(e) => e
    case WalkFailed(e) => e
    case TarCloseFailed(e) => "finalizing tar: " + e
    case GzipCloseFailed(e) => "finalizing gzip: " + e
    case FileCloseFailed(e) => "closing backup file: " + e
    case Written(_) => "backup file empty or not created"
  }

  /**
   * The directory after writing the archive `name`: unchanged when the file
   * could not be created; the archive stored when it was written; otherwise
   * the file is removed again, and stays behind, empty, only when its
   * removal is refused.
   */
  function AfterArchive(entries: seq<Entry>, locked: set<string>, name: string, now: int, a: Archiving): seq<Entry> {
    if a.CreateFailed? then entries
    else if ArchiveOk(a) then Without(entries, name) + [Entry(name, false, a.size, now)]
    else if name in locked then Without(entries, name) + [Entry(name, false, 0, now)]
    else Without(entries, name)
  }

  /**
   * `createArchive`: create (or truncate) the named file, write it at
   * `GzipLevel` of the configured level, which the gzip writer always
   * accepts, and, on any failure after creation, remove the file again.
   * `write` gives how writing ends at a given level.
   */
  method CreateArchive(d: Directory, dir: string, t: BackupPolicy.DateTime, now: int, level: int, write: int -> Archiving)
    returns (r: Result<string, string>)
    requires BackupPolicy.ValidTime(t)
    modifies d
    ensures var a := write(GzipLevel(level));
      (r.Ok? <==> ArchiveOk(a)) && (r.Err? ==> r.error == ArchiveError(a))
    ensures d.entries == AfterArchive(old(d.entries), old(d.locked), ArchiveName(t), now, write(GzipLevel(level)))
    ensures r.Ok? ==> r.value == dir + "/" + ArchiveName(t)
    ensures d.locked == old(d.locked)
  {
    var gzLevel := GzipLevel(level);
    r := WriteArchive(d, dir, t, now, write(gzLevel));
  }

  /** The part of `createArchive` after the writers are set up. */
  method WriteArchive(d: Directory, dir: string, t: BackupPolicy.DateTime, now: int, a: Archiving)
    returns (r: Result<string, string>)
    requires BackupPolicy.ValidTime(t)
    modifies d
    ensures r.Ok? <==> ArchiveOk(a)
    ensures r.Ok? ==> r.value == dir + "/" + ArchiveName(t)
    ensures r.Err? ==> r.error == ArchiveError(a)
    ensures d.entries == AfterArchive(old(d.entries), old(d.locked), ArchiveName(t), now, a)
    ensures d.locked == old(d.locked)
  {
    var name := ArchiveName(t);
    if a.CreateFailed? {
      return Err(a.err);
    }
    if ArchiveOk(a) {
      d.Store(name, a.size, now);
      return Ok(dir + "/" + name);
    }
    d.Store(name, 0, now);
    ghost var rest := Without(old(d.entries), name);
    WithoutAppend(rest, [Entry(name, false, 0, now)], name);
    WithoutAbsent(rest, name);
    var _ := d.Remove(name);
    return Err(ArchiveError(a));
  }

  /** Everything `Create` consults besides the configuration. */
  datatype Host = Host(
    server: PathStat, backupsDir: string, mkdir: Option<string>,
    clock: BackupPolicy.DateTime, now: int, archive: int -> Archiving,
    access: Access, vanished: set<string>)

  /** Backups are on, this is no dry run, the server directory exists and the backups directory could be made. */
  predicate Prepared(backup: CraftopsConfig.BackupConfig, dryRun: bool, host: Host) {
    backup.enabled && !dryRun && host.server == Dir && host.mkdir.None?
  }

  /** How writing the archive ends, at the level actually used. */
  function Writing(backup: CraftopsConfig.BackupConfig, host: Host): Archiving {
    host.archive(GzipLevel(backup.compressionLevel))
  }

  /**
   * `Create`: the guards in order, then the archive, then the prune. The
   * archive just written is never pruned when it is the newest eligible one
   * and at least one backup is kept.
   */
  method Create(backup: CraftopsConfig.BackupConfig, dryRun: bool, host: Host, d: Directory)
    returns (r: Result<string, string>, pruning: Option<Pruning>)
    requires BackupPolicy.ValidTime(host.clock)
    modifies d
    ensures !backup.enabled ==> r == Err(ErrBackupsDisabled)
    ensures backup.enabled && dryRun ==> r == Ok(DryRunArchive)
    ensures backup.enabled && !dryRun && host.server != Dir ==>
      r == Err("Server: " + CheckPath("Server", host.server).message)
    ensures backup.enabled && !dryRun && host.server == Dir && host.mkdir.Some? ==>
      r == Err("failed to create backup directory: " + host.mkdir.value)
    ensures Prepared(backup, dryRun, host) ==>
      r == if ArchiveOk(Writing(backup, host)) then Ok(host.backupsDir + "/" + ArchiveName(host.clock))
           else Err(ArchiveError(Writing(backup, host)))
    ensures pruning.Some? <==> Prepared(backup, dryRun, host) && ArchiveOk(Writing(backup, host))
    ensures !Prepared(backup, dryRun, host) ==> d.entries == old(d.entries)
    ensures Prepared(backup, dryRun, host) ==>
      var written := AfterArchive(old(d.entries), old(d.locked), ArchiveName(host.clock), host.now, Writing(backup, host));
      d.entries == if pruning.Some? && pruning.value.Pruned? then Removals(written, old(d.locked), pruning.value.attempted) else written
    ensures d.locked == old(d.locked)
    ensures Prepared(backup, dryRun, host) && ArchiveOk(Writing(backup, host)) && host.access == Readable
      && backup.maxBackups >= 1 && UniqueNames(old(d.entries))
      && (forall e :: e in old(d.entries) ==> e.mtime < host.now)
      && ArchiveName(host.clock) !in host.vanished
      ==> Entry(ArchiveName(host.clock), false, Writing(backup, host).size, host.now) in d.entries
  {
    if !backup.enabled {
      return Err(ErrBackupsDisabled), None;
    }
    if dryRun {
      return Ok(DryRunArchive), None;
    }
    var check := CheckPath("Server", host.server);
    if check.status != StatusOK {
      assert check.name + ": " + check.message == "Server: " + check.message;
      return Err(check.name + ": " + check.message), None;
    }
    if host.mkdir.Some? {
      return Err("failed to create backup directory: " + host.mkdir.value), None;
    }
    r := CreateArchive(d, host.backupsDir, host.clock, host.now, backup.compressionLevel, host.archive);
    if r.Err? {
      return r, None;
    }
    var p, listed := Cleanup(d, host.backupsDir, host.access, host.vanished, backup.maxBackups);
    pruning := Some(p);
    var x := Entry(ArchiveName(host.clock), false, Writing(backup, host).size, host.now);
    if host.access == Readable && backup.maxBackups >= 1 && UniqueNames(old(d.entries))
      && (forall e :: e in old(d.entries) ==> e.mtime < host.now) && x.name !in host.vanished
    {
      var stored := Without(old(d.entries), x.name) + [x];
      StoredUnique(old(d.entries), x);
      if p.Pruned? {
        NewArchiveNotPruned(old(d.entries), x, host.backupsDir, host.vanished, listed, backup.maxBackups);
        RemovalsEffect(stored, d.locked, p.attempted);
      }
    }
  }

  /** Storing a file keeps names unique. */
  lemma StoredUnique(entries: seq<Entry>, x: Entry)
    requires UniqueNames(entries)
    ensures UniqueNames(Without(entries, x.name) + [x])
  {
  }

  /** A value found at two positions is counted at least twice. */
  lemma TwiceCounted<T>(s: seq<T>, i: int, j: int)
    requires 0 <= i < j < |s| && s[i] == s[j]
    ensures multiset(s)[s[i]] >= 2
  {
    assert s == s[..j] + [s[j]] + s[j + 1..];
    assert s[..j][i] == s[i];
  }

  /** Listing after a store: the older archives, each older and differently named, then the new one. */
  lemma CollectedAfterStore(entries: seq<Entry>, x: Entry, dir: string, vanished: set<string>)
    requires Eligible(x, vanished)
    requires forall e :: e in entries ==> e.mtime < x.mtime
    ensures var older := Collected(dir, Without(entries, x.name), vanished);
      Collected(dir, Without(entries, x.name) + [x], vanished) == older + [Info(dir, x)]
      && (forall b :: b in older ==> b.createdAt < x.mtime && b.name != x.name)
  {
    var rest := Without(entries, x.name);
    assert (rest + [x])[..|rest|] == rest;
    forall b | b in Collected(dir, rest, vanished) ensures b.createdAt < x.mtime && b.name != x.name {
      var e :| e in rest && Eligible(e, vanished) && b == Info(dir, e);
      assert e in entries;
    }
  }

  /**
   * The archive just stored, strictly newer than everything else in the
   * directory, sorts first, occurs once, and so is not among the names a
   * prune with a positive limit attempts.
   */
  lemma NewArchiveNotPruned(entries: seq<Entry>, x: Entry, dir: string, vanished: set<string>,
                            listed: seq<BackupInfo>, maxBackups: int)
    requires Eligible(x, vanished)
    requires forall e :: e in entries ==> e.mtime < x.mtime
    requires Descending(listed, CreatedAt)
    requires multiset(listed) == multiset(Collected(dir, Without(entries, x.name) + [x], vanished))
    requires 1 <= maxBackups <= |listed|
    ensures x.name !in Names(listed[maxBackups..])
  {
    var ix := Info(dir, x);
    var older := Collected(dir, Without(entries, x.name), vanished);
    CollectedAfterStore(entries, x, dir, vanished);
    assert multiset(listed) == multiset(older) + multiset{ix};
    assert ix !in older;
    assert multiset(listed)[ix] == 1;
    var j :| 0 <= j < |listed| && listed[j] == ix;
    assert CreatedAt(listed[0]) >= CreatedAt(listed[j]);
    assert listed[0] in multiset(older) + multiset{ix};
    assert listed[0] == ix;
    forall k | maxBackups <= k < |listed| ensures listed[k].name != x.name {
      assert listed[k] in multiset(older) + multiset{ix};
      if listed[k] == ix {
        TwiceCounted(listed, 0, k);
      }
    }
  }
}
