/**
 * `BackupManager` of minecraft_mod_manager/managers/backup.py: the result of
 * creating a backup, the glob pattern built from the name format, and the
 * clean-up that deletes archives past the age or count limit.
 *
 * The archive itself (tar and gzip) is an input: its size, or the text of
 * the exception that stopped it.
 */
module BackupManager {
  import opened Results
  import opened FileSystem
  import opened Discord
  import opened Text
  import BackupPolicy
  import Retention

  // --------------------------------------------------------- create_backup

  function CreatedNotice(name: string): Notice {
    Notice("Server Backup", "\U{2705} Created backup: " + name, false)
  }

  function FailedNotice(error: string): Notice {
    Notice("Backup Failed", "\U{274C} Error creating backup: " + error, true)
  }

  /**
   * `create_backup`: write `strftime(format) + ".tar.gz"` and report it; any
   * exception while archiving is reported with the error colour and turns
   * the result into False. Nothing removes the file `tarfile.open` made, so
   * an add that fails leaves a partial archive under the backup's name.
   */
  method CreateBackup(d: Directory, fmt: string, t: BackupPolicy.DateTime, now: int, archive: BackupPolicy.Archiving)
    returns (ok: bool, notice: Notice)
    requires BackupPolicy.ValidTime(t)
    modifies d
    ensures ok <==> archive.Archived?
    ensures d.locked == old(d.locked)
    ensures archive.OpenFailed? ==> d.entries == old(d.entries)
    ensures !archive.OpenFailed? ==>
      var name := BackupPolicy.BackupName(fmt, t);
      d.entries == Without(old(d.entries), name) + [Entry(name, false, archive.size, now)]
    ensures notice == if ok then CreatedNotice(BackupPolicy.BackupName(fmt, t)) else FailedNotice(archive.error)
  {
    var name := BackupPolicy.BackupName(fmt, t);
    if archive.OpenFailed? {
      return false, FailedNotice(archive.error);
    }
    d.Store(name, archive.size, now);
    if archive.AddFailed? {
      return false, FailedNotice(archive.error);
    }
    return true, CreatedNotice(name);
  }

  // --------------------------------------------------- _get_backup_pattern

  /** The `replacements` dict of `_get_backup_pattern`, in its iteration order. */
  const AsWrittenReplacements: seq<(string, string)> := [("%Y", "*"), ("%m", "*"), ("%d", "*"), ("%H", "*"), ("%M", "*")]

  /** The same table with the seconds directive added. */
  const Replacements: seq<(string, string)> := AsWrittenReplacements + [("%S", "*")]

  predicate NonEmptyPatterns(reps: seq<(string, string)>) {
    forall i :: 0 <= i < |reps| ==> |reps[i].0| > 0
  }

  /** `s` after `s.replace(old, new)` for each pair of `reps`, in order. */
  function ReplaceEach(s: string, reps: seq<(string, string)>): string
    requires NonEmptyPatterns(reps)
    decreases |reps|
  {
    if reps == [] then s else ReplaceEach(ReplaceAll(s, reps[0].0, reps[0].1), reps[1..])
  }

  /**
   * `_get_backup_pattern`: apply each replacement of the table to the name
   * format in turn, then add the leading '*' and the archive suffix. With the
   * table as written the pattern misses every backup of a format that uses
   * the seconds directive; with the corrected table it finds every backup.
   */
  method GetBackupPattern(fmt: string, replacements: seq<(string, string)>) returns (pattern: string)
    requires NonEmptyPatterns(replacements)
    ensures pattern == "*" + ReplaceEach(fmt, replacements) + BackupPolicy.ArchiveSuffix
    ensures replacements == AsWrittenReplacements && BackupPolicy.WellFormedFormat(fmt) && BackupPolicy.UsesDirective(fmt, 'S') ==>
      forall t :: BackupPolicy.ValidTime(t) ==> !BackupPolicy.GlobMatch(pattern, BackupPolicy.BackupName(fmt, t))
    ensures replacements == Replacements && BackupPolicy.WellFormedFormat(fmt) ==>
      forall t :: BackupPolicy.ValidTime(t) ==> BackupPolicy.GlobMatch(pattern, BackupPolicy.BackupName(fmt, t))
  {
    var formatStr := fmt;
    for i := 0 to |replacements|
      invariant ReplaceEach(formatStr, replacements[i..]) == ReplaceEach(fmt, replacements)
    {
      assert replacements[i..][1..] == replacements[i + 1..];
      formatStr := ReplaceAll(formatStr, replacements[i].0, replacements[i].1);
    }
    assert replacements[|replacements|..] == [];
    pattern := "*" + formatStr + BackupPolicy.ArchiveSuffix;
    if replacements == AsWrittenReplacements && BackupPolicy.WellFormedFormat(fmt) && BackupPolicy.UsesDirective(fmt, 'S') {
      AsWrittenTable(fmt);
      forall t | BackupPolicy.ValidTime(t) ensures !BackupPolicy.GlobMatch(pattern, BackupPolicy.BackupName(fmt, t)) {
        BackupPolicy.AsWrittenPatternMissesBackups(fmt, t);
      }
    }
    if replacements == Replacements && BackupPolicy.WellFormedFormat(fmt) {
      CorrectedTable(fmt);
      forall t | BackupPolicy.ValidTime(t) ensures BackupPolicy.GlobMatch(pattern, BackupPolicy.BackupName(fmt, t)) {
        BackupPolicy.PatternFindsBackups(fmt, t);
      }
    }
  }

  /** The table as written performs the five replacements of BackupPolicy.BackupPatternAsWritten. */
  lemma AsWrittenTable(fmt: string)
    ensures NonEmptyPatterns(AsWrittenReplacements)
    ensures "*" + ReplaceEach(fmt, AsWrittenReplacements) + BackupPolicy.ArchiveSuffix == BackupPolicy.BackupPatternAsWritten(fmt)
  {
    FiveReplacements(fmt, AsWrittenReplacements);
  }

  /** The corrected table performs the replacements of BackupPolicy.BackupPattern. */
  lemma CorrectedTable(fmt: string)
    ensures NonEmptyPatterns(Replacements)
    ensures "*" + ReplaceEach(fmt, Replacements) + BackupPolicy.ArchiveSuffix == BackupPolicy.BackupPattern(fmt)
  {
    var reps := Replacements;
    FiveReplacements(fmt, reps);
    var five := BackupPolicy.ReplaceDateFields(fmt);
    assert reps[5..] == [("%S", "*")];
    assert ReplaceEach(five, reps[5..]) == ReplaceAll(five, "%S", "*") by {
      var last := reps[5..];
      assert last[1..] == [];
    }
  }

  /** The first five entries of either table are the date and time replacements. */
  lemma FiveReplacements(fmt: string, reps: seq<(string, string)>)
    requires reps == AsWrittenReplacements || reps == Replacements
    ensures NonEmptyPatterns(reps)
    ensures ReplaceEach(fmt, reps) == ReplaceEach(BackupPolicy.ReplaceDateFields(fmt), reps[5..])
  {
    assert reps[0] == ("%Y", "*") && reps[1] == ("%m", "*") && reps[2] == ("%d", "*");
    assert reps[3] == ("%H", "*") && reps[4] == ("%M", "*");
    var y := ReplaceAll(fmt, "%Y", "*");
    var m := ReplaceAll(y, "%m", "*");
    var d := ReplaceAll(m, "%d", "*");
    var h := ReplaceAll(d, "%H", "*");
    StepEach(fmt, reps, 0);
    StepEach(y, reps, 1);
    StepEach(m, reps, 2);
    StepEach(d, reps, 3);
    StepEach(h, reps, 4);
  }

  /** One step of ReplaceEach, from position `i` of the table. */
  lemma StepEach(s: string, reps: seq<(string, string)>, i: nat)
    requires NonEmptyPatterns(reps) && i < |reps|
    ensures ReplaceEach(s, reps[i..]) == ReplaceEach(ReplaceAll(s, reps[i].0, reps[i].1), reps[i + 1..])
  {
    assert reps[i..][1..] == reps[i + 1..];
  }

  // --------------------------------------------------- cleanup_old_backups

  /** The failed removals `_delete_backup` absorbs: a permission error is only logged. */
  const Tolerated: set<Removal> := {PermissionDenied}

  /**
   * `cleanup_old_backups`: list the archives the pattern finds, newest
   * first, and delete each one that is past the count limit or older than
   * `keepDays` days. A permission error is logged and the loop goes on; any
   * other failure ends the clean-up, which only logs it. The pattern is the
   * corrected one (see GetBackupPattern).
   */
  method CleanupOldBackups(d: Directory, fmt: string, now: int, keepDays: int, maxBackups: int)
    returns (stopped: Option<Removal>, done: nat)
    modifies d
    ensures d.locked == old(d.locked)
    ensures var victims := Retention.Doomed(Retention.Listing(old(d.entries), BackupPolicy.BackupPattern(fmt)), now, keepDays, maxBackups);
      RanUntil(old(d.entries), old(d.locked), victims, done, Tolerated) &&
      d.entries == Removals(old(d.entries), old(d.locked), victims[..done]) &&
      (stopped.Some? <==> done < |victims|) &&
      (stopped.Some? ==> stopped.value == RemovalOutcome(d.entries, d.locked, victims[done]))
  {
    CorrectedTable(fmt);
    var pattern := GetBackupPattern(fmt, Replacements);
    var backups := Retention.Listing(d.entries, pattern);
    stopped, done := Retention.Sweep(d, backups, now, keepDays, maxBackups, Tolerated);
  }

  /** No two positions of `names` hold the same name. */
  predicate Distinct(names: seq<string>) {
    forall a, b :: 0 <= a < b < |names| ==> names[a] != names[b]
  }

  /** Every name of `names` is that of a regular file of `entries`. */
  predicate RegularFiles(entries: seq<Entry>, names: seq<string>) {
    forall j :: 0 <= j < |names| ==> IsRegularFile(entries, names[j])
  }

  predicate IsRegularFile(entries: seq<Entry>, name: string) {
    exists e :: e in entries && e.name == name && !e.isDir
  }

  /**
   * A removal of a regular file not removed before never ends the loop: it
   * either succeeds or fails with the permission error that is tolerated.
   */
  lemma PermissionErrorsDoNotStop(entries: seq<Entry>, locked: set<string>, names: seq<string>, j: nat)
    requires UniqueNames(entries) && Distinct(names) && RegularFiles(entries, names)
    requires j < |names|
    ensures !Stops(entries, locked, names[..j], names[j], Tolerated)
  {
    assert IsRegularFile(entries, names[j]);
    var e :| e in entries && e.name == names[j] && !e.isDir;
    var done := names[..j];
    assert names[j] !in done by {
      forall a | 0 <= a < j ensures done[a] != names[j] {
        assert done[a] == names[a];
      }
    }
    RemovalsEffect(entries, locked, done);
    var before := Removals(entries, locked, done);
    assert e in before;
    var found := Find(before, names[j]);
    assert found.Some?;
    assert found.value == e;
  }

  /**
   * With distinct regular files to delete, the loop visits every one of
   * them: permission errors leave files behind but never end the clean-up.
   */
  lemma SweepCompletes(entries: seq<Entry>, locked: set<string>, names: seq<string>, done: nat)
    requires UniqueNames(entries) && Distinct(names) && RegularFiles(entries, names)
    requires RanUntil(entries, locked, names, done, Tolerated)
    ensures done == |names|
  {
    if done < |names| {
      PermissionErrorsDoNotStop(entries, locked, names, done);
    }
  }
}
