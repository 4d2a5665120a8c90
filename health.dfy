/**
 * The `health-check` command of both Go generations: the path checks it
 * runs itself, and the tally of every check into passed, warned and failed
 * that decides the command's error result.
 *
 * The newer command (internal/cli/commands_health.go) works on
 * `Domain.HealthStatus`; the older one (internal/cli/health.go) works on
 * status strings and counts only "OK", "WARN" and "ERROR", so the emoji
 * statuses of the older mod and backup services are counted nowhere.
 */
module Health {
  import opened Results
  import opened Text
  import Domain
  import ModService
  import BackupService
  import FileSystem

  // ------------------------------------------------------------ newer command

  /** `checkPaths`: the four configured directories, in a fixed order. */
  function PathChecks(server: Domain.PathStat, mods: Domain.PathStat, backups: Domain.PathStat, logs: Domain.PathStat)
    : (r: seq<Domain.HealthCheck>)
    ensures |r| == 4
    ensures r[0].name == "Server directory" && r[1].name == "Mods directory"
    ensures r[2].name == "Backups directory" && r[3].name == "Logs directory"
    ensures (r[0].status == Domain.StatusOK <==> server == Domain.Dir) && (r[1].status == Domain.StatusOK <==> mods == Domain.Dir)
    ensures (r[2].status == Domain.StatusOK <==> backups == Domain.Dir) && (r[3].status == Domain.StatusOK <==> logs == Domain.Dir)
    ensures forall k :: 0 <= k < 4 ==> (r[k].status == Domain.StatusError <==> [server, mods, backups, logs][k] == Domain.RegularFile)
  {
    [ Domain.CheckPath("Server directory", server),
      Domain.CheckPath("Mods directory", mods),
      Domain.CheckPath("Backups directory", backups),
      Domain.CheckPath("Logs directory", logs) ]
  }

  /** The number of checks with status `s`. */
  function Count(checks: seq<Domain.HealthCheck>, s: Domain.HealthStatus): (n: nat)
    ensures n <= |checks|
  {
    if |checks| == 0 then 0
    else Count(checks[..|checks| - 1], s) + (if checks[|checks| - 1].status == s then 1 else 0)
  }

  /** Every check lands in exactly one of the three buckets. */
  lemma {:induction false} CountsPartition(checks: seq<Domain.HealthCheck>)
    ensures Count(checks, Domain.StatusOK) + Count(checks, Domain.StatusWarn) + Count(checks, Domain.StatusError) == |checks|
    decreases |checks|
  {
    if |checks| > 0 {
      CountsPartition(checks[..|checks| - 1]);
    }
  }

  /** A status is counted iff some check carries it. */
  lemma {:induction false} CountPositive(checks: seq<Domain.HealthCheck>, s: Domain.HealthStatus)
    ensures Count(checks, s) > 0 <==> exists c :: c in checks && c.status == s
    decreases |checks|
  {
    if |checks| > 0 {
      var init := checks[..|checks| - 1];
      CountPositive(init, s);
      assert checks == init + [checks[|checks| - 1]];
      if exists c :: c in checks && c.status == s {
        var c :| c in checks && c.status == s;
        if c != checks[|checks| - 1] {
          assert c in init;
        }
      }
    }
  }

  /** The summary line the command prints. */
  function SummaryLine(passed: nat, warned: nat, failed: nat): string {
    if failed > 0 then NatToString(failed) + " failed, " + NatToString(warned) + " warnings, " + NatToString(passed) + " passed"
    else if warned > 0 then NatToString(warned) + " warnings, " + NatToString(passed) + " passed"
    else "All " + NatToString(passed) + " checks passed!"
  }

  /**
   * `displayHealthSummary`: tallies the checks, prints the summary line and
   * fails exactly when some check is an error.
   */
  method Summarize(checks: seq<Domain.HealthCheck>) returns (line: string, err: Option<string>)
    ensures err.Some? <==> exists c :: c in checks && c.status == Domain.StatusError
    ensures err.Some? ==> err.value == NatToString(Count(checks, Domain.StatusError)) + " health checks failed"
    ensures line == SummaryLine(Count(checks, Domain.StatusOK), Count(checks, Domain.StatusWarn), Count(checks, Domain.StatusError))
    ensures (forall c :: c in checks ==> c.status == Domain.StatusOK) ==> line == "All " + NatToString(|checks|) + " checks passed!"
  {
    var p, w, f := 0, 0, 0;
    for i := 0 to |checks|
      invariant p == Count(checks[..i], Domain.StatusOK)
      invariant w == Count(checks[..i], Domain.StatusWarn)
      invariant f == Count(checks[..i], Domain.StatusError)
    {
      CountStep(checks, i);
      match checks[i].status
      case StatusOK => p := p + 1;
      case StatusWarn => w := w + 1;
      case StatusError => f := f + 1;
    }
    assert checks[..|checks|] == checks;
    CountPositive(checks, Domain.StatusError);
    AllPassedLine(checks);
    line := SummaryLine(p, w, f);
    if f > 0 {
      return line, Some(NatToString(f) + " health checks failed");
    }
    return line, None;
  }

  /** The counts over the first `i + 1` checks, from those over the first `i`. */
  lemma CountStep(checks: seq<Domain.HealthCheck>, i: nat)
    requires i < |checks|
    ensures forall s :: Count(checks[..i + 1], s) == Count(checks[..i], s) + (if checks[i].status == s then 1 else 0)
  {
    assert checks[..i + 1][..i] == checks[..i];
  }

  /** When every check passed, the summary line reports all of them as passed. */
  lemma AllPassedLine(checks: seq<Domain.HealthCheck>)
    ensures (forall c :: c in checks ==> c.status == Domain.StatusOK) ==>
      SummaryLine(Count(checks, Domain.StatusOK), Count(checks, Domain.StatusWarn), Count(checks, Domain.StatusError))
        == "All " + NatToString(|checks|) + " checks passed!"
  {
    if forall c :: c in checks ==> c.status == Domain.StatusOK {
      CountNone(checks, Domain.StatusError);
      CountNone(checks, Domain.StatusWarn);
      CountsPartition(checks);
      var n := |checks|;
      assert SummaryLine(n, 0, 0) == "All " + NatToString(n) + " checks passed!";
    }
  }

  lemma {:induction false} CountNone(checks: seq<Domain.HealthCheck>, s: Domain.HealthStatus)
    requires forall c :: c in checks ==> c.status != s
    ensures Count(checks, s) == 0
    decreases |checks|
  {
    if |checks| > 0 {
      var init := checks[..|checks| - 1];
      assert forall c :: c in init ==> c in checks;
      CountNone(init, s);
    }
  }

  // ------------------------------------------------------------ older command

  /** The three statuses the older command counts. */
  const Counted: set<string> := {"OK", "WARN", "ERROR"}

  /** The number of checks whose status is exactly the string `s`. */
  function Tally(checks: seq<ModService.HealthCheck>, s: string): (n: nat)
    ensures n <= |checks|
  {
    if |checks| == 0 then 0
    else Tally(checks[..|checks| - 1], s) + (if checks[|checks| - 1].status == s then 1 else 0)
  }

  /** The tallies add up to the number of checks exactly when every status is one of the counted three. */
  lemma {:induction false} TallyPartition(checks: seq<ModService.HealthCheck>)
    ensures Tally(checks, "OK") + Tally(checks, "WARN") + Tally(checks, "ERROR") <= |checks|
    ensures Tally(checks, "OK") + Tally(checks, "WARN") + Tally(checks, "ERROR") == |checks|
      <==> forall c :: c in checks ==> c.status in Counted
    decreases |checks|
  {
    if |checks| > 0 {
      var init := checks[..|checks| - 1];
      TallyPartition(init);
      assert checks == init + [checks[|checks| - 1]];
    }
  }

  lemma {:induction false} TallyAppend(a: seq<ModService.HealthCheck>, b: seq<ModService.HealthCheck>, s: string)
    ensures Tally(a + b, s) == Tally(a, s) + Tally(b, s)
    decreases |b|
  {
    if |b| > 0 {
      var init := b[..|b| - 1];
      TallyAppend(a, init, s);
      assert (a + b)[..|a + b| - 1] == a + init;
      assert (a + b)[|a + b| - 1] == b[|b| - 1];
    } else {
      assert a + b == a;
    }
  }

  lemma {:induction false} TallyNone(checks: seq<ModService.HealthCheck>, s: string)
    requires forall c :: c in checks ==> c.status != s
    ensures Tally(checks, s) == 0
    decreases |checks|
  {
    if |checks| > 0 {
      var init := checks[..|checks| - 1];
      assert forall c :: c in init ==> c in checks;
      TallyNone(init, s);
    }
  }

  /** The emoji statuses of the older mod and backup services are none of the counted strings. */
  lemma EmojiNotCounted()
    ensures ModService.Passed !in Counted && ModService.Broken !in Counted && ModService.Warned !in Counted
  {
    assert ModService.Warned[0] != "OK"[0] && ModService.Warned[0] != "WARN"[0] && ModService.Warned[0] != "ERROR"[0];
  }

  /**
   * The command body's loop: tallies the checks and fails exactly when one
   * of them is the string "ERROR".
   */
  method OlderSummarize(checks: seq<ModService.HealthCheck>) returns (passed: nat, warnings: nat, failed: nat, err: Option<string>)
    ensures passed == Tally(checks, "OK") && warnings == Tally(checks, "WARN") && failed == Tally(checks, "ERROR")
    ensures err.Some? <==> exists c :: c in checks && c.status == "ERROR"
    ensures err.Some? ==> err.value == "health check failed: " + NatToString(failed) + " checks failed"
    ensures passed + warnings + failed <= |checks|
  {
    passed, warnings, failed := 0, 0, 0;
    for i := 0 to |checks|
      invariant passed == Tally(checks[..i], "OK")
      invariant warnings == Tally(checks[..i], "WARN")
      invariant failed == Tally(checks[..i], "ERROR")
      invariant failed > 0 <==> exists k :: 0 <= k < i && checks[k].status == "ERROR"
    {
      assert checks[..i + 1][..i] == checks[..i];
      if checks[i].status == "OK" {
        passed := passed + 1;
      } else if checks[i].status == "WARN" {
        warnings := warnings + 1;
      } else if checks[i].status == "ERROR" {
        failed := failed + 1;
      }
    }
    assert checks[..|checks|] == checks;
    TallyPartition(checks);
    if failed > 0 {
      err := Some("health check failed: " + NatToString(failed) + " checks failed");
    } else {
      err := None;
      assert forall c :: c in checks ==> c.status != "ERROR";
    }
  }

  /**
   * The older command appends the path, mod, server, backup and
   * notification checks in that order. The mod and backup checks leave
   * every tally as it would be without them, so a missing mods directory
   * or an unusable backup directory never fails the command.
   */
  lemma ModAndBackupChecksUncounted(
    paths: seq<ModService.HealthCheck>, server: seq<ModService.HealthCheck>, notification: seq<ModService.HealthCheck>,
    modsDirIsDir: bool, jars: Option<nat>, sources: nat, probe: ModService.Probe,
    backups: Domain.PathStat, entries: seq<FileSystem.Entry>, globOk: bool, enabled: bool, maxBackups: int, mkdir: Option<string>,
    s: string)
    requires s in Counted
    ensures var mods := ModService.ModHealth(modsDirIsDir, jars, sources, probe);
      var backup := BackupService.Health(backups, entries, globOk, enabled, maxBackups, mkdir);
      Tally(paths + mods + server + backup + notification, s) == Tally(paths + server + notification, s)
  {
    var mods := ModService.ModHealth(modsDirIsDir, jars, sources, probe);
    var backup := BackupService.Health(backups, entries, globOk, enabled, maxBackups, mkdir);
    EmojiNotCounted();
    TallyNone(mods, s);
    TallyNone(backup, s);
    TallyAppend(paths, mods, s);
    TallyAppend(paths + mods, server, s);
    TallyAppend(paths + mods + server, backup, s);
    TallyAppend(paths + mods + server + backup, notification, s);
    TallyAppend(paths, server, s);
    TallyAppend(paths + server, notification, s);
  }

  /** What `os.Stat` and the trial `os.Create` of a test file report for one path. */
  datatype PathProbe = Missing | NotDirectory | Unwritable | Writable

  /** One entry of the older `checkPaths`. */
  function OlderCheckPath(name: string, probe: PathProbe): (r: ModService.HealthCheck)
    ensures r.name == name
    ensures r.status == "OK" <==> probe == Writable
    ensures r.status == "WARN" <==> probe == Missing
    ensures r.status == "ERROR" <==> probe in {NotDirectory, Unwritable}
  {
    match probe
    case Missing => ModService.HealthCheck(name, "WARN", "Directory does not exist")
    case NotDirectory => ModService.HealthCheck(name, "ERROR", "Path exists but is not a directory")
    case Unwritable => ModService.HealthCheck(name, "ERROR", "No write permission")
    case Writable => ModService.HealthCheck(name, "OK", "OK")
  }

  /** The configured directories, keyed by the check's name. */
  datatype Paths = Paths(server: string, mods: string, backups: string, logs: string)

  function PathOf(paths: Paths, name: string): string {
    if name == "Server directory" then paths.server
    else if name == "Mods directory" then paths.mods
    else if name == "Backups directory" then paths.backups
    else paths.logs
  }

  const PathNames: seq<string> := ["Server directory", "Mods directory", "Backups directory", "Logs directory"]

  function CheckNames(checks: seq<ModService.HealthCheck>): (r: seq<string>)
    ensures |r| == |checks| && forall k :: 0 <= k < |r| ==> r[k] == checks[k].name
  {
    if |checks| == 0 then [] else CheckNames(checks[..|checks| - 1]) + [checks[|checks| - 1].name]
  }

  lemma FourNames(order: seq<string>)
    requires multiset(order) == multiset(PathNames)
    ensures |order| == 4
  {
    assert |order| == |multiset(order)| == |multiset(PathNames)|;
  }

  /**
   * The older `checkPaths`: one check per configured directory, appended
   * while ranging over a Go map. The map's iteration order is the parameter
   * `order`, any arrangement of the four names; `probe` says what the file
   * system reports for a path.
   */
  method OlderPathChecks(paths: Paths, order: seq<string>, probe: string -> PathProbe) returns (checks: seq<ModService.HealthCheck>)
    requires multiset(order) == multiset(PathNames)
    ensures |checks| == 4
    ensures multiset(CheckNames(checks)) == multiset(PathNames)
    ensures forall k :: 0 <= k < |checks| ==> checks[k] == OlderCheckPath(checks[k].name, probe(PathOf(paths, checks[k].name)))
  {
    FourNames(order);
    checks := [];
    for i := 0 to |order|
      invariant checks == Probed(order[..i], paths, probe)
    {
      var name := order[i];
      var path := PathOf(paths, name);
      assert order[..i + 1] == order[..i] + [name];
      checks := checks + [OlderCheckPath(name, probe(path))];
    }
    assert order[..|order|] == order;
    ProbedNames(order, paths, probe);
  }

  /** The checks of the names, in order. */
  function Probed(names: seq<string>, paths: Paths, probe: string -> PathProbe): seq<ModService.HealthCheck> {
    if names == [] then []
    else Probed(names[..|names| - 1], paths, probe) + [OlderCheckPath(names[|names| - 1], probe(PathOf(paths, names[|names| - 1])))]
  }

  /** Each check is that of its own name, and the names are those given. */
  lemma {:induction false} ProbedNames(names: seq<string>, paths: Paths, probe: string -> PathProbe)
    ensures var checks := Probed(names, paths, probe);
      CheckNames(checks) == names &&
      forall k :: 0 <= k < |checks| ==> checks[k] == OlderCheckPath(checks[k].name, probe(PathOf(paths, checks[k].name)))
    decreases |names|
  {
    if names != [] {
      var init, last := names[..|names| - 1], names[|names| - 1];
      ProbedNames(init, paths, probe);
      var before := Probed(init, paths, probe);
      var c := OlderCheckPath(last, probe(PathOf(paths, last)));
      var checks := before + [c];
      assert checks[..|checks| - 1] == before;
      assert CheckNames(checks) == names;
      forall k | 0 <= k < |checks|
        ensures checks[k] == OlderCheckPath(checks[k].name, probe(PathOf(paths, checks[k].name)))
      {
        if k < |before| {
          assert checks[k] == before[k];
        }
      }
    }
  }
}
