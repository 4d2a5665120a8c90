/**
 * The Go configuration (internal/config/config.go): the settings sections,
 * the built-in defaults, and validation, which checks the modloader and the
 * logging settings and stores them in their canonical case in place.
 *
 * The home directory is a parameter of the defaults. `filepath.Join` is
 * joining with '/' (the parts used have no separators to clean).
 */
module CraftopsConfig {
  import opened Results
  import opened Text

  datatype MinecraftConfig = MinecraftConfig(version: string, modloader: string)
  datatype PathsConfig = PathsConfig(server: string, mods: string, backups: string, logs: string)
  datatype ServerConfig = ServerConfig(
    jarName: string, javaFlags: seq<string>, stopCommand: string,
    maxStopWait: int, startupTimeout: int, sessionName: string)
  datatype ModsConfig = ModsConfig(
    concurrentDownloads: int, maxRetries: int, retryDelay: real, timeout: int, modrinthSources: seq<string>)
  datatype BackupConfig = BackupConfig(
    enabled: bool, maxBackups: int, compressionLevel: int, includeLogs: bool, excludePatterns: seq<string>)
  datatype NotificationConfig = NotificationConfig(
    discordWebhook: string, warningIntervals: seq<int>, warningMessage: string,
    successNotifications: bool, errorNotifications: bool)
  datatype LoggingConfig = LoggingConfig(level: string, format: string, fileEnabled: bool, consoleEnabled: bool)

  const ValidModloaders: seq<string> := ["fabric", "forge", "quilt", "neoforge"]
  const ValidLevels: seq<string> := ["DEBUG", "INFO", "WARNING", "ERROR", "CRITICAL"]
  const ValidFormats: seq<string> := ["json", "text"]

  /** Go's `%v` of a string slice. */
  function ListText(xs: seq<string>): string {
    "[" + Join(xs, " ") + "]"
  }

  function PathJoin(parts: seq<string>): string {
    Join(parts, "/")
  }

  // ------------------------------------------------------------ defaults

  function DefaultMinecraft(): MinecraftConfig {
    MinecraftConfig("1.20.1", "fabric")
  }

  function DefaultPaths(home: string): PathsConfig {
    var server := PathJoin([home, "minecraft", "server"]);
    PathsConfig(server, PathJoin([server, "mods"]), PathJoin([home, "minecraft", "backups"]),
      PathJoin([home, ".local", "share", "craftops", "logs"]))
  }

  function DefaultServer(): ServerConfig {
    ServerConfig("server.jar",
      ["-Xms4G", "-Xmx4G", "-XX:+UseG1GC", "-XX:+ParallelRefProcEnabled",
       "-XX:+UnlockExperimentalVMOptions", "-XX:+DisableExplicitGC", "-XX:+AlwaysPreTouch"],
      "stop", 300, 120, "minecraft")
  }

  function DefaultMods(): ModsConfig {
    ModsConfig(5, 3, 2.0, 30, [])
  }

  function DefaultBackup(): BackupConfig {
    BackupConfig(true, 5, 6, false, ["*.log", "*.log.*", "cache/", "temp/", ".DS_Store", "Thumbs.db"])
  }

  function DefaultNotifications(): NotificationConfig {
    NotificationConfig("", [15, 10, 5, 1], "Server will restart in {minutes} minute(s) for mod updates", true, true)
  }

  function DefaultLogging(): LoggingConfig {
    LoggingConfig("INFO", "json", true, true)
  }

  // ---------------------------------------------------------- validation

  /** The check of `validateModloader`: the lower-cased value must be a known loader. */
  function ModloaderCheck(modloader: string): (r: Result<string, string>)
    ensures r.Ok? <==> Lower(modloader) in ValidModloaders
    ensures r.Ok? ==> r.value == Lower(modloader)
    ensures r.Err? ==> HasPrefix(r.error, "unsupported modloader: " + modloader)
  {
    var lowered := Lower(modloader);
    if lowered !in ValidModloaders then
      var m := "unsupported modloader: " + modloader + ". Must be one of " + ListText(ValidModloaders);
      assert m == ("unsupported modloader: " + modloader) + (". Must be one of " + ListText(ValidModloaders));
      Err(m)
    else Ok(lowered)
  }

  /** The level check of `validateLogging`: the upper-cased level must be known. */
  function LevelCheck(level: string): (r: Result<string, string>)
    ensures r.Ok? <==> Upper(level) in ValidLevels
    ensures r.Ok? ==> r.value == Upper(level)
    ensures r.Err? ==> HasPrefix(r.error, "invalid log level: " + level)
  {
    var raised := Upper(level);
    if raised !in ValidLevels then
      var m := "invalid log level: " + level + ". Must be one of " + ListText(ValidLevels);
      assert m == ("invalid log level: " + level) + (". Must be one of " + ListText(ValidLevels));
      Err(m)
    else Ok(raised)
  }

  /** The format check of `validateLogging`: the lower-cased format must be json or text. */
  function FormatCheck(format: string): (r: Result<string, string>)
    ensures r.Ok? <==> Lower(format) in ValidFormats
    ensures r.Ok? ==> r.value == Lower(format)
    ensures r.Err? ==> HasPrefix(r.error, "invalid log format: " + format)
  {
    var lowered := Lower(format);
    if lowered !in ValidFormats then
      var m := "invalid log format: " + format + ". Must be one of " + ListText(ValidFormats);
      assert m == ("invalid log format: " + format) + (". Must be one of " + ListText(ValidFormats));
      Err(m)
    else Ok(lowered)
  }

  /** What `Validate` leaves behind: its error, and the two sections it may rewrite. */
  datatype Validation = Validation(error: Option<string>, minecraft: MinecraftConfig, logging: LoggingConfig)

  /**
   * `Validate` as a function of the sections it reads: the modloader first,
   * then the level, then the format; each accepted value is stored before
   * the next check, so a later failure keeps the earlier rewrites.
   */
  function ValidateEffect(minecraft: MinecraftConfig, logging: LoggingConfig): Validation {
    match ModloaderCheck(minecraft.modloader)
    case Err(e) => Validation(Some(e), minecraft, logging)
    case Ok(loader) =>
      var mc := minecraft.(modloader := loader);
      match LevelCheck(logging.level)
      case Err(e) => Validation(Some(e), mc, logging)
      case Ok(level) =>
        var lg := logging.(level := level);
        match FormatCheck(logging.format)
        case Err(e) => Validation(Some(e), mc, lg)
        case Ok(format) => Validation(None, mc, lg.(format := format))
  }

  class Config {
    var debug: bool
    var dryRun: bool
    var minecraft: MinecraftConfig
    var paths: PathsConfig
    var server: ServerConfig
    var mods: ModsConfig
    var backup: BackupConfig
    var notifications: NotificationConfig
    var logging: LoggingConfig

    /** `DefaultConfig`. */
    constructor Default(home: string)
      ensures !debug && !dryRun
      ensures minecraft == DefaultMinecraft() && paths == DefaultPaths(home) && server == DefaultServer()
      ensures mods == DefaultMods() && backup == DefaultBackup()
      ensures notifications == DefaultNotifications() && logging == DefaultLogging()
    {
      debug, dryRun := false, false;
      minecraft := DefaultMinecraft();
      paths := DefaultPaths(home);
      server := DefaultServer();
      mods := DefaultMods();
      backup := DefaultBackup();
      notifications := DefaultNotifications();
      logging := DefaultLogging();
    }

    /** `validateModloader`: store the lower-cased loader, or fail and change nothing. */
    method ValidateModloader() returns (err: Option<string>)
      modifies this
      ensures err.None? <==> Lower(old(minecraft.modloader)) in ValidModloaders
      ensures minecraft == if err.None? then old(minecraft).(modloader := Lower(old(minecraft.modloader))) else old(minecraft)
      ensures err.Some? ==> err == Some(ModloaderCheck(old(minecraft.modloader)).error)
      ensures debug == old(debug) && dryRun == old(dryRun) && paths == old(paths) && server == old(server)
      ensures mods == old(mods) && backup == old(backup) && notifications == old(notifications) && logging == old(logging)
    {
      match ModloaderCheck(minecraft.modloader) {
        case Err(e) =>
          err := Some(e);
        case Ok(loader) =>
          minecraft := minecraft.(modloader := loader);
          err := None;
      }
    }

    /** `validateLogging`: the level, stored upper-cased, then the format, stored lower-cased. */
    method ValidateLogging() returns (err: Option<string>)
      modifies this
      ensures var level := LevelCheck(old(logging.level));
        var format := FormatCheck(old(logging.format));
        if level.Err? then err == Some(level.error) && logging == old(logging)
        else if format.Err? then err == Some(format.error) && logging == old(logging).(level := level.value)
        else err.None? && logging == old(logging).(level := level.value, format := format.value)
      ensures debug == old(debug) && dryRun == old(dryRun) && paths == old(paths) && server == old(server)
      ensures mods == old(mods) && backup == old(backup) && notifications == old(notifications) && minecraft == old(minecraft)
    {
      match LevelCheck(logging.level) {
        case Err(e) =>
          return Some(e);
        case Ok(level) =>
          logging := logging.(level := level);
      }
      match FormatCheck(logging.format) {
        case Err(e) =>
          return Some(e);
        case Ok(format) =>
          logging := logging.(format := format);
      }
      return None;
    }

    /** `Validate`: the modloader, then logging; the first error is returned. */
    method Validate() returns (err: Option<string>)
      modifies this
      ensures Validation(err, minecraft, logging) == ValidateEffect(old(minecraft), old(logging))
      ensures debug == old(debug) && dryRun == old(dryRun) && paths == old(paths) && server == old(server)
      ensures mods == old(mods) && backup == old(backup) && notifications == old(notifications)
    {
      err := ValidateModloader();
      if err.None? {
        err := ValidateLogging();
      }
    }
  }

  /** Validation succeeds exactly when all three settings are known, in any case. */
  lemma ValidateAccepts(minecraft: MinecraftConfig, logging: LoggingConfig)
    ensures ValidateEffect(minecraft, logging).error.None? <==>
      Lower(minecraft.modloader) in ValidModloaders && Upper(logging.level) in ValidLevels &&
      Lower(logging.format) in ValidFormats
  {
  }

  /** A modloader error returns before any logging field is touched. */
  lemma ModloaderCheckedFirst(minecraft: MinecraftConfig, logging: LoggingConfig)
    requires Lower(minecraft.modloader) !in ValidModloaders
    ensures ValidateEffect(minecraft, logging) == Validation(Some(ModloaderCheck(minecraft.modloader).error), minecraft, logging)
  {
  }

  /** Validating a validated configuration succeeds again and changes nothing. */
  lemma ValidateIdempotent(minecraft: MinecraftConfig, logging: LoggingConfig)
    requires ValidateEffect(minecraft, logging).error.None?
    ensures var v := ValidateEffect(minecraft, logging);
      ValidateEffect(v.minecraft, v.logging) == v
  {
    LowerIdempotent(minecraft.modloader);
    UpperIdempotent(logging.level);
    LowerIdempotent(logging.format);
  }

  /** The defaults pass validation unchanged. */
  lemma DefaultValidates()
    ensures ValidateEffect(DefaultMinecraft(), DefaultLogging()) ==
      Validation(None, DefaultMinecraft(), DefaultLogging())
  {
    assert Lower("fabric") == "fabric";
    assert Upper("INFO") == "INFO";
    assert Lower("json") == "json";
  }
}
