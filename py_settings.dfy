/**
 * The configuration of the Python package
 * (minecraft_mod_manager/settings/config.py): the `Config` dataclass, its
 * construction from the parsed TOML tables with a default for every absent
 * key, the start command, the legacy `mods` view, and `validate`, which
 * checks the server paths and creates the working directories.
 *
 * The file system `validate` sees is a `Host`: the sets of directory and
 * regular-file paths.
 */
module PySettings {
  import opened Results
  import opened Text

  // ------------------------------------------------------------- from_dict

  /** A parsed TOML value, as far as the configuration reads it. */
  datatype Toml =
    | Str(s: string)
    | Int(i: int)
    | Strs(xs: seq<string>)
    | Ints(ns: seq<int>)
    | Table(fields: map<string, Toml>)

  /** The keyword arguments of the dataclass constructor. */
  datatype Args = Args(
    serverPath: string,
    modsPath: string,
    backupsPath: string,
    logsPath: string,
    serverJar: string,
    javaFlags: seq<string>,
    stopCommand: string,
    maxStopWait: int,
    minecraftVersion: string,
    modloader: string,
    chunkSize: int,
    maxRetries: int,
    baseDelay: int,
    modrinthMods: Option<seq<string>>,
    curseforgeMods: Option<seq<string>>,
    maxBackups: int,
    backupNameFormat: string,
    discordWebhook: string,
    warningTemplate: string,
    warningIntervals: Option<seq<int>>)

  /** `data.get(key, {})` for a section. */
  function Section(t: map<string, Toml>, key: string): map<string, Toml> {
    if key in t && t[key].Table? then t[key].fields else map[]
  }

  function StrAt(t: map<string, Toml>, key: string, default: string): string {
    if key in t && t[key].Str? then t[key].s else default
  }

  function IntAt(t: map<string, Toml>, key: string, default: int): int {
    if key in t && t[key].Int? then t[key].i else default
  }

  function StrsAt(t: map<string, Toml>, key: string, default: seq<string>): seq<string> {
    if key in t && t[key].Strs? then t[key].xs else default
  }

  function IntsAt(t: map<string, Toml>, key: string, default: seq<int>): seq<int> {
    if key in t && t[key].Ints? then t[key].ns else default
  }

  const DefaultIntervals: seq<int> := [15, 10, 5, 1]
  const DefaultTemplate: string := "Server will restart in {minutes} minutes for updates"

  /** `Config.from_dict`: every setting from its section, or its default when absent. */
  function FromDict(data: map<string, Toml>): Args {
    var paths := Section(data, "paths");
    var server := Section(data, "server");
    var minecraft := Section(data, "minecraft");
    var mods := Section(data, "mods");
    var sources := Section(mods, "sources");
    var backup := Section(data, "backup");
    var notifications := Section(data, "notifications");
    Args(
      StrAt(paths, "server", "/path/to/minecraft/server"),
      StrAt(paths, "mods", "/path/to/minecraft/server/mods"),
      StrAt(paths, "backups", "/path/to/minecraft/backups"),
      StrAt(paths, "logs", "/path/to/minecraft/logs/mod-manager.log"),
      StrAt(server, "jar", "server.jar"),
      StrsAt(server, "java_flags", ["-Xms4G", "-Xmx4G"]),
      StrAt(server, "stop_command", "stop"),
      IntAt(server, "max_stop_wait", 300),
      StrAt(minecraft, "version", "1.20.1"),
      StrAt(minecraft, "modloader", "fabric"),
      IntAt(mods, "chunk_size", 5),
      IntAt(mods, "max_retries", 3),
      IntAt(mods, "base_delay", 2),
      Some(StrsAt(sources, "modrinth", [])),
      Some(StrsAt(sources, "curseforge", [])),
      IntAt(backup, "max_mod_backups", 3),
      StrAt(backup, "name_format", "%Y%m%d_%H%M%S"),
      StrAt(notifications, "discord_webhook", ""),
      StrAt(notifications, "warning_template", DefaultTemplate),
      Some(IntsAt(notifications, "warning_intervals", DefaultIntervals)))
  }

  /** The tables a configuration file holding exactly the settings of `a` parses to. */
  function ToDict(a: Args): map<string, Toml>
    requires a.modrinthMods.Some? && a.curseforgeMods.Some? && a.warningIntervals.Some?
  {
    map[
      "paths" := Table(PathsTable(a)),
      "server" := Table(ServerTable(a)),
      "minecraft" := Table(map["version" := Str(a.minecraftVersion), "modloader" := Str(a.modloader)]),
      "mods" := Table(ModsTable(a)),
      "backup" := Table(map["max_mod_backups" := Int(a.maxBackups), "name_format" := Str(a.backupNameFormat)]),
      "notifications" := Table(NotificationsTable(a))]
  }

  function PathsTable(a: Args): map<string, Toml> {
    map["server" := Str(a.serverPath), "mods" := Str(a.modsPath), "backups" := Str(a.backupsPath), "logs" := Str(a.logsPath)]
  }

  function ServerTable(a: Args): map<string, Toml> {
    map["jar" := Str(a.serverJar), "java_flags" := Strs(a.javaFlags), "stop_command" := Str(a.stopCommand), "max_stop_wait" := Int(a.maxStopWait)]
  }

  function ModsTable(a: Args): map<string, Toml>
    requires a.modrinthMods.Some? && a.curseforgeMods.Some?
  {
    map[
      "chunk_size" := Int(a.chunkSize), "max_retries" := Int(a.maxRetries), "base_delay" := Int(a.baseDelay),
      "sources" := Table(map["modrinth" := Strs(a.modrinthMods.value), "curseforge" := Strs(a.curseforgeMods.value)])]
  }

  function NotificationsTable(a: Args): map<string, Toml>
    requires a.warningIntervals.Some?
  {
    map["discord_webhook" := Str(a.discordWebhook), "warning_template" := Str(a.warningTemplate), "warning_intervals" := Ints(a.warningIntervals.value)]
  }

  /** Every setting written to the file is the one read back. */
  lemma FromDictReadsEverything(a: Args)
    requires a.modrinthMods.Some? && a.curseforgeMods.Some? && a.warningIntervals.Some?
    ensures FromDict(ToDict(a)) == a
  {
    var data := ToDict(a);
    SectionsOf(a);
    SmallSectionsOf(a);
    ReadPaths(a);
    ReadServer(a);
    ReadMods(a);
    ReadNotifications(a);
  }

  lemma SectionsOf(a: Args)
    requires a.modrinthMods.Some? && a.curseforgeMods.Some? && a.warningIntervals.Some?
    ensures var data := ToDict(a);
      Section(data, "paths") == PathsTable(a) && Section(data, "server") == ServerTable(a) &&
      Section(data, "mods") == ModsTable(a) && Section(data, "notifications") == NotificationsTable(a)
  {
  }

  lemma SmallSectionsOf(a: Args)
    requires a.modrinthMods.Some? && a.curseforgeMods.Some? && a.warningIntervals.Some?
    ensures var data := ToDict(a);
      StrAt(Section(data, "minecraft"), "version", "1.20.1") == a.minecraftVersion &&
      StrAt(Section(data, "minecraft"), "modloader", "fabric") == a.modloader &&
      IntAt(Section(data, "backup"), "max_mod_backups", 3) == a.maxBackups &&
      StrAt(Section(data, "backup"), "name_format", "%Y%m%d_%H%M%S") == a.backupNameFormat
  {
  }

  lemma ReadPaths(a: Args)
    ensures var t := PathsTable(a);
      StrAt(t, "server", "/path/to/minecraft/server") == a.serverPath &&
      StrAt(t, "mods", "/path/to/minecraft/server/mods") == a.modsPath &&
      StrAt(t, "backups", "/path/to/minecraft/backups") == a.backupsPath &&
      StrAt(t, "logs", "/path/to/minecraft/logs/mod-manager.log") == a.logsPath
  {
  }

  lemma ReadServer(a: Args)
    ensures var t := ServerTable(a);
      StrAt(t, "jar", "server.jar") == a.serverJar && StrsAt(t, "java_flags", ["-Xms4G", "-Xmx4G"]) == a.javaFlags &&
      StrAt(t, "stop_command", "stop") == a.stopCommand && IntAt(t, "max_stop_wait", 300) == a.maxStopWait
  {
  }

  lemma ReadMods(a: Args)
    requires a.modrinthMods.Some? && a.curseforgeMods.Some?
    ensures var t := ModsTable(a);
      IntAt(t, "chunk_size", 5) == a.chunkSize && IntAt(t, "max_retries", 3) == a.maxRetries &&
      IntAt(t, "base_delay", 2) == a.baseDelay &&
      StrsAt(Section(t, "sources"), "modrinth", []) == a.modrinthMods.value &&
      StrsAt(Section(t, "sources"), "curseforge", []) == a.curseforgeMods.value
  {
  }

  lemma ReadNotifications(a: Args)
    requires a.warningIntervals.Some?
    ensures var t := NotificationsTable(a);
      StrAt(t, "discord_webhook", "") == a.discordWebhook &&
      StrAt(t, "warning_template", DefaultTemplate) == a.warningTemplate &&
      IntsAt(t, "warning_intervals", DefaultIntervals) == a.warningIntervals.value
  {
  }

  /** An empty file gives the documented defaults. */
  lemma FromDictDefaults()
    ensures var a := FromDict(map[]);
      a.serverJar == "server.jar" && a.javaFlags == ["-Xms4G", "-Xmx4G"] &&
      a.stopCommand == "stop" && a.maxStopWait == 300 &&
      a.minecraftVersion == "1.20.1" && a.modloader == "fabric" &&
      a.chunkSize == 5 && a.maxRetries == 3 && a.baseDelay == 2 &&
      a.modrinthMods == Some([]) && a.curseforgeMods == Some([]) &&
      a.maxBackups == 3 && a.backupNameFormat == "%Y%m%d_%H%M%S" &&
      a.discordWebhook == "" && a.warningTemplate == DefaultTemplate && a.warningIntervals == Some([15, 10, 5, 1])
  {
  }

  /** An empty file gives the placeholder paths under /path/to/minecraft. */
  lemma FromDictDefaultPaths()
    ensures var a := FromDict(map[]);
      a.serverPath == "/path/to/minecraft/server" && a.modsPath == "/path/to/minecraft/server/mods" &&
      a.backupsPath == "/path/to/minecraft/backups" && a.logsPath == "/path/to/minecraft/logs/mod-manager.log"
  {
  }

  // ---------------------------------------------------------- start_command

  /** `start_command`: `java <flags joined by spaces> -jar <jar> nogui`. */
  function StartCommand(javaFlags: seq<string>, serverJar: string): string {
    "java " + Join(javaFlags, " ") + " -jar " + serverJar + " nogui"
  }

  /**
   * Split at spaces, the command gives back its words: `java`, each flag,
   * `-jar`, the jar and `nogui`; with no flag, an empty word stands where
   * the flags would be.
   */
  lemma StartCommandWords(javaFlags: seq<string>, serverJar: string)
    requires forall k :: 0 <= k < |javaFlags| ==> ' ' !in javaFlags[k]
    requires ' ' !in serverJar
    ensures javaFlags != [] ==> Split(StartCommand(javaFlags, serverJar), ' ') == ["java"] + javaFlags + ["-jar", serverJar, "nogui"]
    ensures javaFlags == [] ==> Split(StartCommand(javaFlags, serverJar), ' ') == ["java", "", "-jar", serverJar, "nogui"]
  {
    var words := if javaFlags != [] then javaFlags else [""];
    var parts := ["java"] + words + ["-jar", serverJar, "nogui"];
    StartCommandJoined(javaFlags, serverJar, words);
    forall k | 0 <= k < |parts| ensures ' ' !in parts[k] {
      if 1 <= k < 1 + |words| {
        assert parts[k] == words[k - 1];
      }
    }
    SplitJoin(parts, ' ');
  }

  /** The command is its words joined by single spaces. */
  lemma StartCommandJoined(javaFlags: seq<string>, serverJar: string, words: seq<string>)
    requires words == if javaFlags != [] then javaFlags else [""]
    ensures StartCommand(javaFlags, serverJar) == Join(["java"] + words + ["-jar", serverJar, "nogui"], " ")
  {
    var tail := ["-jar", serverJar, "nogui"];
    assert Join(words, " ") == Join(javaFlags, " ");
    JoinConcat(["java"], words + tail, " ");
    FlagsThenJar(words, serverJar);
    assert ["java"] + (words + tail) == ["java"] + words + tail;
  }

  lemma FlagsThenJar(words: seq<string>, serverJar: string)
    requires words != []
    ensures Join(words + ["-jar", serverJar, "nogui"], " ") == Join(words, " ") + " -jar " + serverJar + " nogui"
  {
    JoinConcat(words, ["-jar", serverJar, "nogui"], " ");
    JoinThree("-jar", serverJar, "nogui", " ");
  }

  lemma JoinThree(a: string, b: string, c: string, sep: string)
    ensures Join([a, b, c], sep) == a + sep + b + sep + c
  {
    assert [a, b, c][1..] == [b, c];
    assert [b, c][1..] == [c];
    assert Join([b, c], sep) == b + sep + c;
    assert Join([a, b, c], sep) == a + sep + (b + sep + c);
  }

  // ------------------------------------------------------------ the class

  /** The legacy `mods.sources` view. */
  datatype SourcesView = SourcesView(modrinth: Option<seq<string>>, curseforge: Option<seq<string>>)

  /** The legacy `mods` view. */
  datatype ModsView = ModsView(chunkSize: int, maxRetries: int, baseDelay: int, sources: SourcesView)

  /** The file system `validate` works on. */
  class Host {
    var dirs: set<string>
    var files: set<string>

    constructor (dirs: set<string>, files: set<string>)
      ensures this.dirs == dirs && this.files == files
    {
      this.dirs := dirs;
      this.files := files;
    }
  }

  function Exists(dirs: set<string>, files: set<string>, path: string): bool {
    path in dirs || path in files
  }

  /** `Path(server) / jar`. */
  function JarPath(server: string, jar: string): string {
    server + "/" + jar
  }

  /** The directories after `mkdir(parents=True, exist_ok=True)` on each target, and the target that raised, if any. */
  datatype Made = Made(dirs: set<string>, failed: Option<string>)

  /** The proper ancestors of `p` from index `i` on: each prefix that ends just before a '/'. */
  function AncestorsFrom(p: string, i: nat): seq<string>
    decreases |p| - i
  {
    if i >= |p| then []
    else (if p[i] == '/' then [p[..i]] else []) + AncestorsFrom(p, i + 1)
  }

  /**
   * The paths `mkdir(parents=True)` works through for `p`, outermost first:
   * every ancestor below the root (or below "." for a relative path), then
   * `p` itself.
   */
  function Lineage(p: string): seq<string> {
    AncestorsFrom(p, 1) + [p]
  }

  /** Each path of `AncestorsFrom(p, i)` is a prefix of `p` ending before a '/' at index `i` or later. */
  lemma {:induction false} AncestorsFromSound(p: string, i: nat)
    ensures forall q :: q in AncestorsFrom(p, i) ==> i <= |q| < |p| && q == p[..|q|] && p[|q|] == '/'
    decreases |p| - i
  {
    if i < |p| {
      AncestorsFromSound(p, i + 1);
      var head := if p[i] == '/' then [p[..i]] else [];
      assert AncestorsFrom(p, i) == head + AncestorsFrom(p, i + 1);
      forall q | q in AncestorsFrom(p, i) ensures i <= |q| < |p| && q == p[..|q|] && p[|q|] == '/' {
        if q in head {
          assert q == p[..i];
        }
      }
    }
  }

  /** Each prefix of `p` ending before a '/' at index `i` or later is in `AncestorsFrom(p, i)`. */
  lemma {:induction false} AncestorsFromComplete(p: string, i: nat)
    ensures forall j :: i <= j < |p| && p[j] == '/' ==> p[..j] in AncestorsFrom(p, i)
    decreases |p| - i
  {
    if i < |p| {
      AncestorsFromComplete(p, i + 1);
      var head := if p[i] == '/' then [p[..i]] else [];
      assert AncestorsFrom(p, i) == head + AncestorsFrom(p, i + 1);
      forall j | i <= j < |p| && p[j] == '/' ensures p[..j] in AncestorsFrom(p, i) {
        if j == i {
          assert p[..j] in head;
        }
      }
    }
  }

  /**
   * The lineage of `p` ends with `p`, holds every prefix of `p` that ends
   * before a '/' past the first character, and nothing else.
   */
  lemma LineageMembers(p: string)
    ensures Lineage(p)[|Lineage(p)| - 1] == p
    ensures forall j :: 0 < j < |p| && p[j] == '/' ==> p[..j] in Lineage(p)
    ensures forall q :: q in Lineage(p) ==> q == p || (0 < |q| < |p| && q == p[..|q|] && p[|q|] == '/')
  {
    AncestorsFromSound(p, 1);
    AncestorsFromComplete(p, 1);
  }

  /**
   * One `mkdir(parents=True, exist_ok=True)`, outermost path first: a
   * directory is passed, a path that is only a regular file raises
   * (FileExistsError, or NotADirectoryError below it) and is named in
   * `failed`, and a missing path is made.
   */
  function MakeChain(dirs: set<string>, files: set<string>, chain: seq<string>): Made
    decreases |chain|
  {
    if chain == [] then Made(dirs, None)
    else if chain[0] in dirs then MakeChain(dirs, files, chain[1..])
    else if chain[0] in files then Made(dirs, Some(chain[0]))
    else MakeChain(dirs + {chain[0]}, files, chain[1..])
  }

  /**
   * What one `mkdir` makes: only paths of the chain that are not regular
   * files are added; without a failure every path of the chain is a
   * directory afterwards; a failure names a path of the chain that is a
   * regular file and not a directory.
   */
  lemma {:induction false} MakeChainEffect(dirs: set<string>, files: set<string>, chain: seq<string>)
    ensures var m := MakeChain(dirs, files, chain);
      dirs <= m.dirs &&
      (forall p :: p in m.dirs - dirs ==> p in chain && p !in files) &&
      (m.failed.None? ==> forall k :: 0 <= k < |chain| ==> chain[k] in m.dirs) &&
      (m.failed.Some? ==> m.failed.value in chain && m.failed.value in files && m.failed.value !in m.dirs)
    decreases |chain|
  {
    if chain != [] {
      var next := if chain[0] in dirs then dirs else dirs + {chain[0]};
      MakeChainEffect(next, files, chain[1..]);
      assert forall q :: q in chain[1..] ==> q in chain;
      var m := MakeChain(dirs, files, chain);
      if m.failed.None? {
        forall k | 0 <= k < |chain| ensures chain[k] in m.dirs {
          if k > 0 {
            assert chain[k] == chain[1..][k - 1];
          }
        }
      }
    }
  }

  /** Every path the targets' `mkdir` calls work through, in order. */
  function Planned(targets: seq<string>): seq<string> {
    if targets == [] then []
    else Planned(targets[..|targets| - 1]) + Lineage(targets[|targets| - 1])
  }

  /**
   * `mkdir(parents=True, exist_ok=True)` on each of `targets` in turn,
   * until one raises; `failed` names that target.
   */
  function MakeDirs(dirs: set<string>, files: set<string>, targets: seq<string>): Made {
    if targets == [] then Made(dirs, None)
    else
      var m := MakeDirs(dirs, files, targets[..|targets| - 1]);
      var last := targets[|targets| - 1];
      if m.failed.Some? then m
      else
        var c := MakeChain(m.dirs, files, Lineage(last));
        Made(c.dirs, if c.failed.Some? then Some(last) else None)
  }

  /**
   * What the run makes: only paths on the targets' lineages that are not
   * regular files are added; without a failure every target and every
   * ancestor of one is a directory; a failure names a target with a
   * regular file, not a directory, on its lineage.
   */
  lemma {:induction false} MakeDirsEffect(dirs: set<string>, files: set<string>, targets: seq<string>)
    ensures var m := MakeDirs(dirs, files, targets);
      dirs <= m.dirs &&
      (forall p :: p in m.dirs - dirs ==> p in Planned(targets) && p !in files) &&
      (m.failed.None? ==> forall q :: q in Planned(targets) ==> q in m.dirs) &&
      (m.failed.None? ==> forall k :: 0 <= k < |targets| ==> targets[k] in m.dirs) &&
      (m.failed.Some? ==>
        m.failed.value in targets &&
        exists q :: q in Planned(targets) && q in Lineage(m.failed.value) && q in files && q !in m.dirs)
    decreases |targets|
  {
    if targets != [] {
      var init := targets[..|targets| - 1];
      var last := targets[|targets| - 1];
      MakeDirsEffect(dirs, files, init);
      assert Planned(targets) == Planned(init) + Lineage(last);
      var m := MakeDirs(dirs, files, init);
      if m.failed.None? {
        MakeDirsLast(dirs, files, targets, m.dirs);
      } else {
        assert forall p :: p in init ==> p in targets;
      }
      forall k | 0 <= k < |targets| ensures targets[k] in Planned(targets) {
        PlannedHolds(targets, k);
      }
    }
  }

  /** The last target's `mkdir` on top of a run over the others that did not raise. */
  lemma MakeDirsLast(dirs: set<string>, files: set<string>, targets: seq<string>, current: set<string>)
    requires targets != []
    requires MakeDirs(dirs, files, targets[..|targets| - 1]) == Made(current, None)
    ensures var m := MakeDirs(dirs, files, targets);
      var last := targets[|targets| - 1];
      current <= m.dirs &&
      (forall p :: p in m.dirs - current ==> p in Lineage(last) && p !in files) &&
      (m.failed.None? ==> forall q :: q in Lineage(last) ==> q in m.dirs) &&
      (m.failed.Some? ==>
        m.failed.value == last && exists q :: q in Lineage(last) && q in files && q !in m.dirs)
  {
    var last := targets[|targets| - 1];
    MakeChainEffect(current, files, Lineage(last));
    var c := MakeChain(current, files, Lineage(last));
    if c.failed.None? {
      forall q | q in Lineage(last) ensures q in c.dirs {
        var k :| 0 <= k < |Lineage(last)| && Lineage(last)[k] == q;
      }
    }
  }

  /** Each target's lineage, the target included, is planned. */
  lemma {:induction false} PlannedHolds(targets: seq<string>, k: nat)
    requires k < |targets|
    ensures forall q :: q in Lineage(targets[k]) ==> q in Planned(targets)
    ensures targets[k] in Planned(targets)
    decreases |targets|
  {
    var init := targets[..|targets| - 1];
    var last := Lineage(targets[|targets| - 1]);
    assert Planned(targets) == Planned(init) + last;
    if k < |init| {
      assert targets[k] == init[k];
      PlannedHolds(init, k);
    } else {
      assert last[|last| - 1] == targets[k];
    }
  }

  function ServerMissing(server: string): string {
    "Server directory does not exist: " + server
  }

  function JarMissing(server: string, jar: string): string {
    "Server jar file not found: " + JarPath(server, jar)
  }

  /**
   * The errors `validate` collects: the server directory is missing (before
   * the directories are made), or it exists (after) and the jar does not.
   */
  function ValidationErrors(serverBefore: bool, serverAfter: bool, jarAfter: bool, server: string, jar: string): (e: seq<string>)
    ensures e == [] <==> serverBefore && (jarAfter || !serverAfter)
    ensures |e| <= 2
  {
    (if serverBefore then [] else [ServerMissing(server)]) +
    (if !jarAfter && serverAfter then [JarMissing(server, jar)] else [])
  }

  /** The names `validate` gives the three directories it checks. */
  datatype PathName = ServerDir | ModsDir | BackupsDir

  class Config {
    var serverPath: string
    var modsPath: string
    var backupsPath: string
    var logsPath: string
    var serverJar: string
    var javaFlags: seq<string>
    var stopCommand: string
    var maxStopWait: int
    var minecraftVersion: string
    var modloader: string
    var chunkSize: int
    var maxRetries: int
    var baseDelay: int
    var modrinthMods: Option<seq<string>>
    var curseforgeMods: Option<seq<string>>
    var maxBackups: int
    var backupNameFormat: string
    var discordWebhook: string
    var warningTemplate: string
    var warningIntervals: Option<seq<int>>

    /** After construction no list setting is None. */
    predicate Valid()
      reads this
    {
      modrinthMods.Some? && curseforgeMods.Some? && warningIntervals.Some?
    }

    /**
     * The generated `__init__` followed by `__post_init__`: absent source
     * lists become empty and absent warning intervals become 15, 10, 5 and
     * 1 minutes; every other setting is stored as given.
     */
    constructor (a: Args)
      ensures Valid()
      ensures serverPath == a.serverPath && modsPath == a.modsPath && backupsPath == a.backupsPath && logsPath == a.logsPath
      ensures serverJar == a.serverJar && javaFlags == a.javaFlags && stopCommand == a.stopCommand && maxStopWait == a.maxStopWait
      ensures minecraftVersion == a.minecraftVersion && modloader == a.modloader
      ensures chunkSize == a.chunkSize && maxRetries == a.maxRetries && baseDelay == a.baseDelay
      ensures modrinthMods == (if a.modrinthMods.Some? then a.modrinthMods else Some([]))
      ensures curseforgeMods == (if a.curseforgeMods.Some? then a.curseforgeMods else Some([]))
      ensures maxBackups == a.maxBackups && backupNameFormat == a.backupNameFormat
      ensures discordWebhook == a.discordWebhook && warningTemplate == a.warningTemplate
      ensures warningIntervals == (if a.warningIntervals.Some? then a.warningIntervals else Some(DefaultIntervals))
    {
      serverPath, modsPath, backupsPath, logsPath := a.serverPath, a.modsPath, a.backupsPath, a.logsPath;
      serverJar, javaFlags, stopCommand, maxStopWait := a.serverJar, a.javaFlags, a.stopCommand, a.maxStopWait;
      minecraftVersion, modloader := a.minecraftVersion, a.modloader;
      chunkSize, maxRetries, baseDelay := a.chunkSize, a.maxRetries, a.baseDelay;
      modrinthMods, curseforgeMods := a.modrinthMods, a.curseforgeMods;
      maxBackups, backupNameFormat := a.maxBackups, a.backupNameFormat;
      discordWebhook, warningTemplate, warningIntervals := a.discordWebhook, a.warningTemplate, a.warningIntervals;
      new;
      if modrinthMods.None? {
        modrinthMods := Some([]);
      }
      if curseforgeMods.None? {
        curseforgeMods := Some([]);
      }
      if warningIntervals.None? {
        warningIntervals := Some(DefaultIntervals);
      }
    }

    /** The legacy `mods` view: the flat mod settings under their old names. */
    function Mods(): (v: ModsView)
      reads this
      ensures v.chunkSize == chunkSize && v.maxRetries == maxRetries && v.baseDelay == baseDelay
      ensures v.sources.modrinth == modrinthMods && v.sources.curseforge == curseforgeMods
    {
      ModsView(chunkSize, maxRetries, baseDelay, SourcesView(modrinthMods, curseforgeMods))
    }

    /** The directories `validate` checks, in its order. */
    function Checked(): seq<(PathName, string)>
      reads this
    {
      [(ServerDir, serverPath), (ModsDir, modsPath), (BackupsDir, backupsPath)]
    }

    /**
     * `validate`: a missing server directory is reported, and its own check
     * does not make it; the mods and backups directories are made with
     * their missing parents, which can make the server directory again;
     * then the jar must exist inside the server directory as it stands. The
     * result is True exactly when no error was collected. A regular file on
     * the way to a directory that is to be made raises.
     */
    method Validate(host: Host) returns (r: Result<bool, string>, errors: seq<string>)
      modifies host
      ensures host.files == old(host.files)
      ensures var serverBefore := Exists(old(host.dirs), old(host.files), serverPath);
        var made := MakeDirs(old(host.dirs), old(host.files), Targets(Checked(), serverBefore));
        host.dirs == made.dirs &&
        (made.failed.Some? ==> r == Err(made.failed.value)) &&
        (made.failed.None? ==>
          errors == ValidationErrors(serverBefore, Exists(made.dirs, host.files, serverPath),
                                     Exists(made.dirs, host.files, JarPath(serverPath, serverJar)), serverPath, serverJar) &&
          r == Ok(errors == []))
    {
      ghost var dirs0 := host.dirs;
      var serverBefore := serverPath in host.dirs || serverPath in host.files;
      var paths := [(ServerDir, serverPath), (ModsDir, modsPath), (BackupsDir, backupsPath)];
      ghost var targets: seq<string> := [];
      errors := [];
      for i := 0 to |paths|
        invariant host.files == old(host.files)
        invariant targets == Targets(paths[..i], serverBefore)
        invariant MakeDirs(dirs0, host.files, targets) == Made(host.dirs, None)
        invariant errors == if !serverBefore && i > 0 then [ServerMissing(serverPath)] else []
      {
        var (name, path) := paths[i];
        TargetsStep(paths, i, serverBefore);
        if name == ServerDir && !(path in host.dirs || path in host.files) {
          errors := errors + [ServerMissing(path)];
        } else {
          var made := MakeChain(host.dirs, host.files, Lineage(path));
          if made.failed.Some? {
            TargetRaises(paths, i, serverBefore, dirs0, host.files, targets, host.dirs);
            host.dirs := made.dirs;
            return Err(path), errors;
          }
          MakeDirsStep(dirs0, host.files, targets, host.dirs, path);
          host.dirs := made.dirs;
          targets := targets + [path];
        }
      }
      assert paths[..|paths|] == paths;
      var jar := JarPath(serverPath, serverJar);
      if !(jar in host.dirs || jar in host.files) && (serverPath in host.dirs || serverPath in host.files) {
        errors := errors + [JarMissing(serverPath, serverJar)];
      }
      r := Ok(errors == []);
    }
  }

  /** The targets of one more checked directory. */
  lemma TargetsStep(checked: seq<(PathName, string)>, i: nat, serverThere: bool)
    requires i < |checked|
    ensures Targets(checked[..i + 1], serverThere) ==
      Targets(checked[..i], serverThere) + (if checked[i].0 == ServerDir && !serverThere then [] else [checked[i].1])
  {
    assert checked[..i + 1][..i] == checked[..i];
  }

  /** A target whose `mkdir` raises ends the whole run with its directories as they then are. */
  lemma TargetRaises(checked: seq<(PathName, string)>, i: nat, serverThere: bool,
                     dirs: set<string>, files: set<string>, targets: seq<string>, current: set<string>)
    requires i < |checked| && targets == Targets(checked[..i], serverThere)
    requires !(checked[i].0 == ServerDir && !serverThere)
    requires MakeDirs(dirs, files, targets) == Made(current, None)
    requires MakeChain(current, files, Lineage(checked[i].1)).failed.Some?
    ensures MakeDirs(dirs, files, Targets(checked, serverThere)) ==
      Made(MakeChain(current, files, Lineage(checked[i].1)).dirs, Some(checked[i].1))
  {
    var path := checked[i].1;
    TargetsStep(checked, i, serverThere);
    MakeDirsStep(dirs, files, targets, current, path);
    TargetsPrefix(checked, i + 1, serverThere);
    MakeDirsStops(dirs, files, targets + [path], Targets(checked, serverThere)[|targets| + 1..]);
  }

  /** The paths of `checked` that `validate` makes: all but a missing server directory. */
  function Targets(checked: seq<(PathName, string)>, serverThere: bool): seq<string> {
    if checked == [] then []
    else
      var last := checked[|checked| - 1];
      Targets(checked[..|checked| - 1], serverThere) + (if last.0 == ServerDir && !serverThere then [] else [last.1])
  }

  /** The targets of a prefix are a prefix of the targets. */
  lemma {:induction false} TargetsPrefix(checked: seq<(PathName, string)>, n: nat, serverThere: bool)
    requires n <= |checked|
    ensures var t := Targets(checked[..n], serverThere);
      |t| <= |Targets(checked, serverThere)| && t + Targets(checked, serverThere)[|t|..] == Targets(checked, serverThere)
    decreases |checked|
  {
    if n < |checked| {
      var init := checked[..|checked| - 1];
      assert checked[..n] == init[..n];
      TargetsPrefix(init, n, serverThere);
    } else {
      assert checked[..n] == checked;
    }
  }

  /** For the three checked directories: the server's is made only when it exists. */
  lemma CheckedTargets(server: string, mods: string, backups: string, serverThere: bool)
    ensures Targets([(ServerDir, server), (ModsDir, mods), (BackupsDir, backups)], serverThere) ==
      (if serverThere then [server] else []) + [mods, backups]
  {
    var c := [(ServerDir, server), (ModsDir, mods), (BackupsDir, backups)];
    assert c[..2][..1] == [(ServerDir, server)];
    assert c[..2] == [(ServerDir, server), (ModsDir, mods)];
    assert Targets([(ServerDir, server)], serverThere) == if serverThere then [server] else [];
  }

  /**
   * One more target on top of a run that has not raised: its missing
   * ancestors and itself are made outermost first, and a regular file on
   * the way raises, naming the target.
   */
  lemma MakeDirsStep(dirs: set<string>, files: set<string>, targets: seq<string>, current: set<string>, path: string)
    requires MakeDirs(dirs, files, targets) == Made(current, None)
    ensures var c := MakeChain(current, files, Lineage(path));
      MakeDirs(dirs, files, targets + [path]) == Made(c.dirs, if c.failed.Some? then Some(path) else None)
  {
    assert (targets + [path])[..|targets|] == targets;
  }

  /** Once a target raised, the later targets are not reached. */
  lemma {:induction false} MakeDirsStops(dirs: set<string>, files: set<string>, targets: seq<string>, more: seq<string>)
    requires MakeDirs(dirs, files, targets).failed.Some?
    ensures MakeDirs(dirs, files, targets + more) == MakeDirs(dirs, files, targets)
    decreases |more|
  {
    if more != [] {
      var init := more[..|more| - 1];
      MakeDirsStops(dirs, files, targets, init);
      var all := targets + more;
      assert all[..|all| - 1] == targets + init;
      assert MakeDirs(dirs, files, all[..|all| - 1]).failed.Some?;
      assert MakeDirs(dirs, files, all) == MakeDirs(dirs, files, all[..|all| - 1]);
    } else {
      assert targets + more == targets;
    }
  }

  /** A configuration whose server directory and jar both exist, with nothing in the way of the directories, validates. */
  lemma ValidWhenServerAndJarExist(dirs: set<string>, files: set<string>, server: string, jar: string, mods: string, backups: string)
    requires server in dirs && JarPath(server, jar) in files
    requires forall q :: q in Planned([server, mods, backups]) ==> q !in files || q in dirs
    ensures var made := MakeDirs(dirs, files, [server, mods, backups]);
      made.failed.None? &&
      ValidationErrors(true, Exists(made.dirs, files, server), Exists(made.dirs, files, JarPath(server, jar)), server, jar) == []
  {
    MakeDirsEffect(dirs, files, [server, mods, backups]);
  }

  /**
   * With the default layout, a missing server directory comes back: the
   * mods directory inside it is made with its parents, so the server
   * directory exists when the jar is looked for, and a missing jar is
   * reported as well.
   */
  lemma ModsRemakeMissingServer(dirs: set<string>, files: set<string>, server: string, jar: string, backups: string)
    requires server != [] && server !in dirs && server !in files
    requires JarPath(server, jar) !in dirs && JarPath(server, jar) !in files
    requires forall q :: q in Planned([server + "/mods", backups]) ==> q !in files && q != JarPath(server, jar)
    ensures var made := MakeDirs(dirs, files, Targets([(ServerDir, server), (ModsDir, server + "/mods"), (BackupsDir, backups)], false));
      made.failed.None? && server in made.dirs &&
      ValidationErrors(false, Exists(made.dirs, files, server), Exists(made.dirs, files, JarPath(server, jar)), server, jar) ==
        [ServerMissing(server), JarMissing(server, jar)]
  {
    var mods := server + "/mods";
    CheckedTargets(server, mods, backups, false);
    MakeDirsEffect(dirs, files, [mods, backups]);
    assert mods == server + "/" + "mods";
    ParentInLineage(server, "mods");
    PlannedPair(mods, backups);
  }

  /** A directory is on the lineage of anything directly inside it. */
  lemma ParentInLineage(parent: string, name: string)
    requires parent != []
    ensures parent in Lineage(parent + "/" + name)
  {
    var p := parent + "/" + name;
    LineageMembers(p);
    assert p[|parent|] == '/' && p[..|parent|] == parent;
  }

  /** The paths two targets plan are their lineages, in order. */
  lemma PlannedPair(a: string, b: string)
    ensures Planned([a, b]) == Lineage(a) + Lineage(b)
  {
    assert [a, b][..1] == [a] && [a][..0] == [];
    assert Planned([a]) == Planned([]) + Lineage(a);
    assert Planned([a, b]) == Planned([a]) + Lineage(b);
  }

  /** A missing server directory always fails validation, and names the directory. */
  lemma MissingServerFails(serverAfter: bool, jarAfter: bool, server: string, jar: string)
    ensures var e := ValidationErrors(false, serverAfter, jarAfter, server, jar);
      e != [] && e[0] == ServerMissing(server)
  {
  }
}
