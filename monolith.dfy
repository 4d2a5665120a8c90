/**
 * MinecraftModManager.py, the single-file manager: configuration parsing,
 * the Modrinth look-up of every configured mod in chunks, the download
 * stage and its summary, backup creation and clean-up, the player count
 * read from the server log, and server control.
 *
 * The network, the clock, the log file and the server process are
 * parameters; the mods and backups directories are `Directory` objects.
 * `locked` entries stand for files that `sudo rm` fails to remove.
 */
module Monolith {
  import opened Results
  import opened Text
  import opened FileSystem
  import opened Discord
  import Jsonc
  import Modrinth
  import Batching
  import BackupPolicy
  import Retention
  import ModUpdates
  import NotificationManager

  // ------------------------------------------------------------ parse_jsonc

  /** The characters at which Python's `str.splitlines` breaks a line. */
  predicate IsLineBoundary(c: char) {
    c == '\n' || c == '\r' || c == '\U{0B}' || c == '\U{0C}' || c == '\U{1C}' || c == '\U{1D}' || c == '\U{1E}' ||
    c == '\U{85}' || c == '\U{2028}' || c == '\U{2029}'
  }

  predicate NoBreak(line: string) {
    forall c :: c in line ==> !IsLineBoundary(c)
  }

  function LineEnd(s: string, i: nat): (j: nat)
    requires i <= |s|
    ensures i <= j <= |s|
    ensures forall k :: i <= k < j ==> !IsLineBoundary(s[k])
    ensures j < |s| ==> IsLineBoundary(s[j])
    decreases |s| - i
  {
    if i == |s| || IsLineBoundary(s[i]) then i else LineEnd(s, i + 1)
  }

  /** `s[i..].splitlines()`: "\r\n" is one break, and a final break opens no empty line. */
  function SplitLinesFrom(s: string, i: nat): (r: seq<string>)
    requires i <= |s|
    ensures forall k :: 0 <= k < |r| ==> NoBreak(r[k])
    decreases |s| - i
  {
    if i == |s| then []
    else
      var j := LineEnd(s, i);
      assert NoBreak(s[i..j]) by {
        forall c | c in s[i..j] ensures !IsLineBoundary(c) {
          var k :| 0 <= k < j - i && s[i..j][k] == c;
          assert s[i + k] == c;
        }
      }
      var next := if j + 1 < |s| && s[j] == '\r' && s[j + 1] == '\n' then j + 2 else j + 1;
      if next > |s| then [s[i..j]] else [s[i..j]] + SplitLinesFrom(s, next)
  }

  function SplitLines(s: string): seq<string> {
    SplitLinesFrom(s, 0)
  }

  /** `line.strip() for line in lines if line.strip()`. */
  function Kept(lines: seq<string>): (r: seq<string>)
    requires forall k :: 0 <= k < |lines| ==> NoBreak(lines[k])
    ensures forall k :: 0 <= k < |r| ==> r[k] != [] && Trimmed(r[k]) && NoBreak(r[k])
  {
    if lines == [] then []
    else
      var t := Strip(lines[0]);
      assert NoBreak(lines[0]);
      (if t != [] then [t] else []) + Kept(lines[1..])
  }

  /** Block comments first, then line comments: the order of lines 40 and 43. */
  function CommentsStripped(text: string): string {
    Jsonc.StripLineComments(Jsonc.StripBlockComments(text))
  }

  /** The text `parse_jsonc` hands to `json.loads`. */
  function Prepared(text: string): string {
    Join(Kept(SplitLines(CommentsStripped(text))), "\n")
  }

  /**
   * The prepared text is the non-blank lines of the comment-free text,
   * stripped, one per line: splitting it at "\n" gives them back, and text
   * with no such line becomes the empty document.
   */
  lemma PreparedLines(text: string)
    ensures var lines := Kept(SplitLines(CommentsStripped(text)));
      (forall k :: 0 <= k < |lines| ==> lines[k] != [] && Strip(lines[k]) == lines[k]) &&
      (lines == [] ==> Prepared(text) == []) &&
      (lines != [] ==> Split(Prepared(text), '\n') == lines)
  {
    var lines := Kept(SplitLines(CommentsStripped(text)));
    forall k | 0 <= k < |lines| ensures Strip(lines[k]) == lines[k] {
      StripTrimmed(lines[k]);
    }
    if lines != [] {
      forall k | 0 <= k < |lines| ensures '\n' !in lines[k] {
        assert NoBreak(lines[k]);
      }
      SplitJoin(lines, '\n');
    }
  }

  /** `parse_jsonc`: decode the prepared text; a decoding error is re-raised as a ValueError. */
  function ParseJsonc<V>(text: string, decode: string -> Result<V, string>): (r: Result<V, string>)
    ensures r.Err? ==> HasPrefix(r.error, "Invalid JSONC format: ")
  {
    match decode(Prepared(text))
    case Ok(v) => Ok(v)
    case Err(m) => Err("Invalid JSONC format: " + m)
  }

  /**
   * The order of the two substitutions matters. Blocks first: a "//" inside
   * a block comment goes with the block ...
   */
  lemma BlockCommentsFirst()
    ensures CommentsStripped("/* // */1") == "1"
  {
    var s := "/* // */1";
    assert s == "" + "/*" + " // " + "*/" + "1";
    NoCloseInComment();
    NoMarkers();
    Jsonc.BlockStripClosed("", " // ", "1");
    Jsonc.BlockStripWithoutMarker("1");
    assert Jsonc.StripLineComments("1") == "1" by {
      assert IndexFrom("1", "//", 0).None?;
    }
  }

  /**
   * ... while the package's loader, line comments first, cuts the line at
   * that "//" and leaves an unterminated comment opener behind.
   */
  lemma LineCommentsFirst()
    ensures Jsonc.StripBlockComments(Jsonc.StripLineComments("/* // */1")) == "/* "
  {
    var s := "/* // */1";
    SlashesAt(s);
    Jsonc.LineStripStep(s, 3);
    LineEndsAtEnd(s);
    assert s[..3] == "/* " && s[|s|..] == [];
    assert Jsonc.StripLineComments("") == "";
    NoMarkers();
    Jsonc.BlockStripUnterminated("", " ");
    assert "" + "/*" + " " == "/* ";
  }

  lemma SlashesAt(s: string)
    requires s == "/* // */1"
    ensures IndexFrom(s, "//", 0) == Some(3)
  {
    assert OccursAt(s, "//", 3) by { assert s[3..5] == "//"; }
    assert !OccursAt(s, "//", 0) by { assert s[0..2] == "/*"; }
    assert !OccursAt(s, "//", 1) by { assert s[1..3] == "* "; }
    assert !OccursAt(s, "//", 2) by { assert s[2..4] == " /"; }
  }

  lemma LineEndsAtEnd(s: string)
    requires s == "/* // */1"
    ensures Jsonc.EndOfLine(s, 5) == |s|
  {
    assert s[5] == ' ' && s[6] == '*' && s[7] == '/' && s[8] == '1';
  }

  lemma NoCloseInComment()
    ensures !Contains(" // ", "*/")
  {
    var c := " // ";
    forall i | 0 <= i ensures !OccursAt(c, "*/", i) {
      if 0 <= i && i + 2 <= |c| {
        assert c[i] != '*';
      }
    }
  }

  lemma NoMarkers()
    ensures !Contains("", "/*") && !Contains(" ", "*/") && !Contains("1", "/*") && !Contains("1", "//")
  {
  }

  // ---------------------------------------------------------- notifications

  /**
   * `send_discord_notification`: nothing without a webhook; otherwise the
   * embed with the capped message, and a logged line when the post fails
   * (`result` is the status code or the exception text).
   */
  function SendDiscordNotification(webhook: string, n: Notice, result: Result<int, string>): (r: NotificationManager.Delivery)
    ensures r.NoWebhook? <==> webhook == []
    ensures r.Posted? ==> r.embed.title == n.title && r.embed.description == Truncate(n.message)
    ensures r.Posted? ==> (r.embed.color == Red <==> n.isError)
    ensures r.Posted? ==> (r.logged.None? <==> result.Ok? && Accepted(result.value))
  {
    if webhook == [] then NotificationManager.NoWebhook
    else
      var logged := match result
        case Err(e) => Some("Failed to send Discord notification: " + e)
        case Ok(code) => if Accepted(code) then None else Some("Discord API error: " + IntToString(code));
      NotificationManager.Posted(MakeEmbed(n.title, n.message, Colour(n.isError)), logged)
  }

  /** `_handle_operation_error`: the error notice for a failed operation. */
  function OperationError(operation: string, error: string): (n: Notice)
    ensures n.isError && n.title == operation + " Error"
  {
    Notice(operation + " Error", "\U{274C} " + operation + " failed: " + error, true)
  }

  // ------------------------------------------------------- _fetch_mod_info

  /** What `/v2/project/{id}` decoded to: a record, or a bare JSON string. */
  datatype ProjectBody = ProjectRecord(project: Modrinth.Project) | ProjectText(text: string)

  /** What `/v2/project/{id}/version` decoded to: the release list, or a bare JSON string. */
  datatype VersionsBody = VersionRecords(releases: seq<Modrinth.Release>) | VersionsText(text: string)

  /** The Modrinth API: for each endpoint, the reply to each attempt. */
  datatype Api = Api(projects: string -> nat -> Modrinth.Reply<ProjectBody>,
                     versions: string -> nat -> Modrinth.Reply<VersionsBody>)

  /** The settings `_fetch_mod_info` reads. */
  datatype Settings = Settings(version: string, modloader: string, maxRetries: int, baseDelay: nat)

  /** The pause before every request and between the two requests of one mod. */
  const RequestPause: nat := 2

  const ApiBase := "https://api.modrinth.com/v2/project/"

  function ProjectEndpoint(id: string): string {
    ApiBase + id
  }

  function VersionsEndpoint(id: string): string {
    ApiBase + id + "/version"
  }

  /** One mod's look-up and the sleeps it took, in order. */
  datatype Fetch = Fetch(lookup: Modrinth.Lookup, sleeps: seq<nat>)

  /** `f"{mod_name} ({e})"`, the failure line of the `except` clause. */
  function FailureLine(name: string, message: string): string {
    name + " (" + message + ")"
  }

  /**
   * `_fetch_mod_info` for one URL: the project (for its title), a pause,
   * the version list, then the first compatible release. Failures are
   * reported under the project id until the title is known.
   */
  function FetchModInfo(url: string, api: Api, s: Settings): (r: Fetch)
    ensures |r.sleeps| >= 1 && r.sleeps[0] == RequestPause
  {
    var id := ModUpdates.LastSegment(url);
    var pe := Modrinth.MakeRequest(api.projects(ProjectEndpoint(id)), 0, s.maxRetries, s.baseDelay, RequestPause);
    var project: Result<ProjectBody, string> := Modrinth.Raised(pe, s.maxRetries);
    match project
    case Err(m) => Fetch(Modrinth.Failed(FailureLine(id, m)), pe.sleeps)
    case Ok(ProjectText(t)) => Fetch(Modrinth.Failed(FailureLine(id, "Invalid project data: " + t)), pe.sleeps)
    case Ok(ProjectRecord(p)) =>
      var name := if p.title.Some? then p.title.value else id;
      var v := FetchVersions(id, name, api, s);
      Fetch(v.lookup, pe.sleeps + v.sleeps)
  }

  /** The second half of `_fetch_mod_info`: the pause, the version list and the choice. */
  function FetchVersions(id: string, name: string, api: Api, s: Settings): (r: Fetch)
    ensures |r.sleeps| >= 1 && r.sleeps[0] == RequestPause
  {
    var ve := Modrinth.MakeRequest(api.versions(VersionsEndpoint(id)), 0, s.maxRetries, s.baseDelay, RequestPause);
    var versions: Result<VersionsBody, string> := Modrinth.Raised(ve, s.maxRetries);
    match versions
    case Err(m) => Fetch(Modrinth.Failed(FailureLine(name, m)), [RequestPause] + ve.sleeps)
    case Ok(VersionsText(t)) => Fetch(Modrinth.Failed(FailureLine(name, "Invalid version data: " + t)), [RequestPause] + ve.sleeps)
    case Ok(VersionRecords(rs)) => Fetch(Modrinth.Choose(rs, s.version, s.modloader, name), [RequestPause] + ve.sleeps)
  }

  /** A mod is only found when both of its endpoints answered 200 at some attempt. */
  lemma FoundNeedsAnswers(url: string, api: Api, s: Settings)
    requires FetchModInfo(url, api, s).lookup.Found?
    ensures var id := ModUpdates.LastSegment(url);
      (exists k :: api.projects(ProjectEndpoint(id))(k).Reply? && api.projects(ProjectEndpoint(id))(k).status == 200) &&
      (exists k :: api.versions(VersionsEndpoint(id))(k).Reply? && api.versions(VersionsEndpoint(id))(k).status == 200)
  {
    var id := ModUpdates.LastSegment(url);
    var pe := Modrinth.MakeRequest(api.projects(ProjectEndpoint(id)), 0, s.maxRetries, s.baseDelay, RequestPause);
    assert pe.outcome.Ok?;
    Answered(api.projects(ProjectEndpoint(id)), s);
    var p := pe.outcome.value.project;
    var name := if p.title.Some? then p.title.value else id;
    VersionsFoundNeedsAnswer(id, name, api, s);
  }

  lemma VersionsFoundNeedsAnswer(id: string, name: string, api: Api, s: Settings)
    requires FetchVersions(id, name, api, s).lookup.Found?
    ensures exists k :: api.versions(VersionsEndpoint(id))(k).Reply? && api.versions(VersionsEndpoint(id))(k).status == 200
  {
    var ve := Modrinth.MakeRequest(api.versions(VersionsEndpoint(id)), 0, s.maxRetries, s.baseDelay, RequestPause);
    assert ve.outcome.Ok?;
    Answered(api.versions(VersionsEndpoint(id)), s);
  }

  /** A request that ended well was answered 200 at some attempt. */
  lemma Answered<B>(respond: nat -> Modrinth.Reply<B>, s: Settings)
    requires Modrinth.MakeRequest(respond, 0, s.maxRetries, s.baseDelay, RequestPause).outcome.Ok?
    ensures exists k :: respond(k).Reply? && respond(k).status == 200
  {
    var e := Modrinth.MakeRequest(respond, 0, s.maxRetries, s.baseDelay, RequestPause);
    Modrinth.RequestTrace(respond, 0, s.maxRetries, s.baseDelay, RequestPause);
    var k := e.attempts - 1;
    assert respond(k).Reply? && respond(k).status == 200;
  }

  /**
   * Both requests answered at once and no release is compatible: one
   * failure line naming the title, the game version and the loader, after
   * the three pauses.
   */
  lemma NoCompatibleRelease(url: string, api: Api, s: Settings, title: string, releases: seq<Modrinth.Release>)
    requires var id := ModUpdates.LastSegment(url);
      api.projects(ProjectEndpoint(id))(0) == Modrinth.Reply(200, ProjectRecord(Modrinth.Project(Some(title)))) &&
      api.versions(VersionsEndpoint(id))(0) == Modrinth.Reply(200, VersionRecords(releases))
    requires forall x :: x in releases ==> !Modrinth.CompatibleByMembership(x, s.version, s.modloader)
    ensures FetchModInfo(url, api, s) ==
      Fetch(Modrinth.Failed(Modrinth.NoCompatibleMessage(title, s.version, s.modloader)), [RequestPause, RequestPause, RequestPause])
  {
    var id := ModUpdates.LastSegment(url);
    Modrinth.FirstAnswerOk(api.projects(ProjectEndpoint(id)), 0, s.maxRetries, s.baseDelay, RequestPause);
    Modrinth.FirstAnswerOk(api.versions(VersionsEndpoint(id)), 0, s.maxRetries, s.baseDelay, RequestPause);
  }

  /**
   * A project endpoint that always answers 429 is asked `max_retries + 1`
   * times; the mod fails under its project id with the rate-limit message,
   * wrapped once per attempt, and the version list is never requested.
   */
  lemma ProjectRateLimited(url: string, api: Api, s: Settings)
    requires forall k :: Modrinth.RateLimited(api.projects(ProjectEndpoint(ModUpdates.LastSegment(url)))(k))
    requires s.maxRetries >= 0
    ensures var f := FetchModInfo(url, api, s);
      f.lookup == Modrinth.Failed(FailureLine(ModUpdates.LastSegment(url), Modrinth.Wrap(Modrinth.RateLimitMessage(s.maxRetries), s.maxRetries + 1))) &&
      |f.sleeps| == 2 * s.maxRetries + 1
  {
    var id := ModUpdates.LastSegment(url);
    Modrinth.AlwaysRateLimited(api.projects(ProjectEndpoint(id)), 0, s.maxRetries, s.baseDelay, RequestPause);
  }

  /** The look-up of every URL under the given API and settings. */
  function Lookups(api: Api, s: Settings): string -> Modrinth.Lookup {
    url => FetchModInfo(url, api, s).lookup
  }

  // ------------------------------------------- fetch_latest_mod_versions

  /** The pause between chunks of URLs. */
  const ChunkPause: nat := 2

  function IssuesNotice(failed: seq<string>): Notice {
    Notice("Mod Update Issues", "Failed to process:\n" + Join(failed, "\n"), true)
  }

  /** What the chunked loop collects: nothing for a negative chunk size, every URL otherwise. */
  function Collect(urls: seq<string>, chunkSize: int, lookup: string -> Modrinth.Lookup): ModUpdates.Collected {
    if chunkSize > 0 then Batching.Fold(ModUpdates.Handler(lookup), ModUpdates.Nothing, urls) else ModUpdates.Nothing
  }

  /**
   * `fetch_latest_mod_versions`: look every URL up, `chunk_size` at a time
   * with a pause between chunks. A found mod is stored under its URL, a
   * failed one adds its line, and any failure raises one "Mod Update Issues"
   * notice. A zero chunk size is `range`'s ValueError.
   */
  method FetchLatestModVersions(urls: seq<string>, chunkSize: int, lookup: string -> Modrinth.Lookup)
    returns (r: Result<ModUpdates.Collected, string>, steps: seq<Batching.Step<string>>, notice: Option<Notice>)
    ensures chunkSize == 0 ==> r == Err(Batching.ZeroStepMessage) && steps == [] && notice.None?
    ensures chunkSize != 0 ==> r == Ok(Collect(urls, chunkSize, lookup))
    ensures chunkSize < 0 ==> steps == [] && r == Ok(ModUpdates.Nothing)
    ensures chunkSize > 0 ==> steps == Batching.StepsFrom(urls, chunkSize, ChunkPause, 0)
    ensures r.Ok? ==> ModUpdates.WellOrdered(r.value)
    ensures chunkSize > 0 ==>
      (forall u :: u in r.value.modInfo <==> u in urls && lookup(u).Found?) &&
      (forall u :: u in r.value.modInfo ==> r.value.modInfo[u] == lookup(u).info) &&
      r.value.failed == ModUpdates.FailureLines(urls, lookup)
    ensures notice == if r.Ok? && r.value.failed != [] then Some(IssuesNotice(r.value.failed)) else None
  {
    var run := Batching.RunBatches(urls, chunkSize, ChunkPause, ModUpdates.Handler(lookup), ModUpdates.Nothing);
    if run.Err? {
      return Err(run.error), [], None;
    }
    var c := run.value.0;
    steps := run.value.1;
    ModUpdates.CollectedContents(urls, lookup);
    r := Ok(c);
    notice := if c.failed != [] then Some(IssuesNotice(c.failed)) else None;
  }

  // ------------------------------------------------------------ update_mods

  /** The bullet and arrow of this file's lists. */
  const Bullets := ModUpdates.Marks("\U{2022}", "\U{2192}")

  /** `_run_command` turns a failed `sudo rm` into "Command failed: {stderr}". */
  function RemoveError(stderr: (string, Removal) -> string): (string, Removal) -> string {
    (name: string, r: Removal) => "Command failed: " + stderr(name, r)
  }

  const UpToDateNotice := Notice("Mod Updates", "\U{2705} All mods are up to date!", false)

  function UpdatedHeader(): string {
    "\U{1F4E6} **Updated Mods:**\n"
  }

  function FailedHeader(): string {
    "\U{274C} **Failed Mods:**\n"
  }

  function Statistics(updated: nat, skipped: nat, failed: nat, total: int): string {
    "\U{1F4CA} **Statistics:**\nTotal Mods: " + IntToString(total) + "\nUpdated: " + IntToString(updated) +
    "\nUp to date: " + IntToString(skipped) + "\nFailed: " + IntToString(failed)
  }

  /**
   * The sections of `_send_update_summary`: the updated list (and the failed
   * list after it) when something was updated, else the up-to-date count;
   * then the statistics.
   */
  function SummarySections(updated: seq<string>, skipped: seq<string>, failed: seq<string>, total: int): (r: seq<string>)
    ensures 2 <= |r| <= 3
    ensures r[|r| - 1] == Statistics(|updated|, |skipped|, |failed|, total)
    ensures |r| == 3 <==> updated != [] && failed != []
  {
    var head :=
      if updated != [] then
        [UpdatedHeader() + Join(updated, "\n")] + (if failed != [] then [FailedHeader() + Join(failed, "\n")] else [])
      else
        ["\U{2705} All mods are up to date! (" + IntToString(|skipped|) + "/" + IntToString(total) + ")"];
    head + [Statistics(|updated|, |skipped|, |failed|, total)]
  }

  function SummaryNotice(updated: seq<string>, skipped: seq<string>, failed: seq<string>, total: int): Notice {
    Notice("Mod Update Summary", Join(SummarySections(updated, skipped, failed, total), "\n\n"), false)
  }

  /**
   * The updated mods can be read back from the summary: after the header,
   * one line per mod. Failures are listed only when something was updated:
   * with nothing updated the summary is the up-to-date count whatever failed.
   */
  lemma SummaryLists(updated: seq<string>, skipped: seq<string>, failed: seq<string>, total: int)
    requires forall k :: 0 <= k < |updated| ==> '\n' !in updated[k]
    ensures var r := SummarySections(updated, skipped, failed, total);
      (updated != [] ==> HasPrefix(r[0], UpdatedHeader()) && Split(r[0][|UpdatedHeader()|..], '\n') == updated) &&
      (updated == [] ==> |r| == 2 && r[0] == SummarySections([], skipped, [], total)[0])
  {
    var r := SummarySections(updated, skipped, failed, total);
    if updated != [] {
      SplitJoin(updated, '\n');
      assert r[0] == UpdatedHeader() + Join(updated, "\n");
      assert r[0][|UpdatedHeader()|..] == Join(updated, "\n");
    }
  }

  /**
   * `update_mods`: look the mods up; nothing found sends the up-to-date
   * notice; otherwise update each mod in `mod_info` order and send the
   * summary. The only error that escapes the look-up and download stages
   * is `range`'s, which is reported and re-raised.
   */
  method UpdateMods(d: Directory, urls: seq<string>, chunkSize: int, lookup: string -> Modrinth.Lookup,
                    transfer: Modrinth.ModInfo -> ModUpdates.Transfer, now: int, stderr: (string, Removal) -> string)
    returns (notices: seq<Notice>, raised: Option<string>)
    modifies d
    ensures d.locked == old(d.locked)
    ensures chunkSize == 0 ==>
      raised == Some(Batching.ZeroStepMessage) && d.entries == old(d.entries) &&
      notices == [Notice("Mod Update Error", Batching.ZeroStepMessage, true)]
    ensures chunkSize != 0 ==>
      var c := Collect(urls, chunkSize, lookup);
      var issues := if c.failed != [] then [IssuesNotice(c.failed)] else [];
      ModUpdates.WellOrdered(c) && raised.None? &&
      (c.modInfo == map[] ==> d.entries == old(d.entries) && notices == issues + [UpToDateNotice]) &&
      (c.modInfo != map[] ==>
        var o := ModUpdates.Updates(old(d.entries), old(d.locked), ModUpdates.InOrder(c), transfer, now, Bullets, RemoveError(stderr));
        d.entries == o.entries && notices == issues + [SummaryNotice(o.updated, o.skipped, o.failed, |c.modInfo|)])
  {
    var r, steps, notice := FetchLatestModVersions(urls, chunkSize, lookup);
    if r.Err? {
      return [Notice("Mod Update Error", r.error, true)], Some(r.error);
    }
    var c := r.value;
    notices := if notice.Some? then [notice.value] else [];
    raised := None;
    if c.modInfo == map[] {
      notices := notices + [UpToDateNotice];
      return;
    }
    var tracker := new ModUpdates.Tracker();
    ModUpdates.UpdateAll(tracker, d, c, transfer, now, Bullets, RemoveError(stderr));
    notices := notices + [SummaryNotice(tracker.updated, tracker.skipped, tracker.failed, |c.modInfo|)];
  }

  /** The statistics add up: every mod of `mod_info` is counted once as updated, up to date or failed. */
  lemma StatisticsAddUp(c: ModUpdates.Collected, entries: seq<Entry>, locked: set<string>,
                        transfer: Modrinth.ModInfo -> ModUpdates.Transfer, now: int, stderr: (string, Removal) -> string)
    requires ModUpdates.WellOrdered(c)
    ensures var o := ModUpdates.Updates(entries, locked, ModUpdates.InOrder(c), transfer, now, Bullets, RemoveError(stderr));
      |o.updated| + |o.skipped| + |o.failed| == |c.modInfo|
  {
    ModUpdates.OrderCoversKeys(c);
  }

  // ------------------------------------------------------------ backups

  /** The temporary copy `create_backup` makes inside the backups directory. */
  const TempDir := "temp_backup"

  /**
   * How far `create_backup` got. A command that exits non-zero raises
   * `Command failed: <stderr>`. The setup (creating and opening up the
   * backups and server directories, then `rm -rf temp_backup`) fails before
   * the backups directory changes; `mkdir -p temp_backup` fails after the
   * old temporary directory went; a `chown` or one of the three copies fails
   * with the fresh temporary directory in place; then the archive is written
   * (BackupPolicy.Archiving); last, `rm -rf temp_backup` can fail after the
   * archive of `size` bytes was complete.
   */
  datatype BackupRun =
    | SetupFailed(stderr: string)
    | MakeTempFailed(stderr: string)
    | CopyFailed(stderr: string)
    | Archive(archiving: BackupPolicy.Archiving)
    | CleanupFailed(size: nat, stderr: string)

  /** `str(e)` of the exception that ended the run. */
  function RunError(run: BackupRun): string {
    match run
    case Archive(a) => if a.Archived? then "" else a.error
    case _ => "Command failed: " + run.stderr
  }

  function BackupNotice(ok: bool, name: string, run: BackupRun): Notice {
    if ok then Notice("Server Backup", "\U{2705} Created backup: " + name, false)
    else Notice("Backup Failed", "\U{274C} Backup failed: " + RunError(run), true)
  }

  /**
   * `create_backup`: copy mods, config and world into a fresh `temp_backup`,
   * archive it as `{strftime(format)}.tar.gz`, remove the copy and announce
   * the backup. Any failure is announced as an error and the steps already
   * done stay done: a partial archive keeps the backup's name, and a
   * complete one survives a failed removal of the copy, next to it.
   */
  method CreateBackup(d: Directory, fmt: string, t: BackupPolicy.DateTime, now: int, run: BackupRun)
    returns (ok: bool, notice: Notice)
    requires BackupPolicy.ValidTime(t)
    modifies d
    ensures ok <==> run.Archive? && run.archiving.Archived?
    ensures d.locked == old(d.locked)
    ensures notice == BackupNotice(ok, BackupPolicy.BackupName(fmt, t), run)
    ensures run.SetupFailed? ==> d.entries == old(d.entries)
    ensures run.MakeTempFailed? ==> d.entries == Without(old(d.entries), TempDir)
    ensures var staged := Without(old(d.entries), TempDir) + [Entry(TempDir, true, 0, now)];
      var name := BackupPolicy.BackupName(fmt, t);
      (run.CopyFailed? || (run.Archive? && run.archiving.OpenFailed?) ==> d.entries == staged) &&
      (run.Archive? && run.archiving.AddFailed? ==>
         d.entries == Without(staged, name) + [Entry(name, false, run.archiving.size, now)]) &&
      (run.CleanupFailed? ==> d.entries == Without(staged, name) + [Entry(name, false, run.size, now)])
    ensures ok ==>
      var name := BackupPolicy.BackupName(fmt, t);
      d.entries == Without(Without(old(d.entries), TempDir), name) + [Entry(name, false, run.archiving.size, now)]
  {
    var name := BackupPolicy.BackupName(fmt, t);
    if run.SetupFailed? {
      return false, BackupNotice(false, name, run);
    }
    d.Purge(TempDir);
    if run.MakeTempFailed? {
      return false, BackupNotice(false, name, run);
    }
    d.MakeDir(TempDir, now);
    if run.CopyFailed? || (run.Archive? && run.archiving.OpenFailed?) {
      return false, BackupNotice(false, name, run);
    }
    var staged := d.entries;
    var size := if run.CleanupFailed? then run.size else run.archiving.size;
    d.Store(name, size, now);
    if run.CleanupFailed? || run.archiving.AddFailed? {
      return false, BackupNotice(false, name, run);
    }
    assert name != TempDir by {
      assert !HasSuffix(TempDir, BackupPolicy.ArchiveSuffix);
    }
    ReplaceAroundScratch(old(d.entries), Entry(TempDir, true, 0, now), Entry(name, false, size, now));
    d.Purge(TempDir);
    return true, BackupNotice(true, name, run);
  }

  /**
   * `cleanup_old_backups`: sort the archives the pattern finds newest
   * first and delete each one that is too old or past the count limit; the
   * first failed `sudo rm` ends the clean-up (it is only logged). The
   * pattern is the corrected one, which finds every name `create_backup`
   * gives (see BackupPolicy.PatternFindsBackups).
   */
  method CleanupOldBackups(d: Directory, fmt: string, now: int, keepDays: int, maxBackups: int)
    returns (stopped: Option<Removal>, done: nat)
    modifies d
    ensures d.locked == old(d.locked)
    ensures var victims := Retention.Doomed(Retention.Listing(old(d.entries), BackupPolicy.BackupPattern(fmt)), now, keepDays, maxBackups);
      RanUntil(old(d.entries), old(d.locked), victims, done, {}) &&
      d.entries == Removals(old(d.entries), old(d.locked), victims[..done]) &&
      (stopped.Some? <==> done < |victims|)
  {
    var files := Retention.Listing(d.entries, BackupPolicy.BackupPattern(fmt));
    stopped, done := Retention.Sweep(d, files, now, keepDays, maxBackups, {});
  }

  /** A backup just created is among those the clean-up considers. */
  lemma CreatedBackupIsListed(entries: seq<Entry>, fmt: string, t: BackupPolicy.DateTime, size: nat, now: int)
    requires BackupPolicy.WellFormedFormat(fmt) && BackupPolicy.ValidTime(t)
    ensures var name := BackupPolicy.BackupName(fmt, t);
      var e := Entry(name, false, size, now);
      e in Retention.Listing(Without(entries, name) + [e], BackupPolicy.BackupPattern(fmt))
  {
    var name := BackupPolicy.BackupName(fmt, t);
    var e := Entry(name, false, size, now);
    BackupPolicy.PatternFindsBackups(fmt, t);
    var m := Retention.Matching(Without(entries, name) + [e], BackupPolicy.BackupPattern(fmt));
    assert e in m;
    assert e in multiset(m);
  }

  // ------------------------------------------------------- get_player_count

  /** `readlines()[-n:]`: the last `n` lines of the log. */
  function Window(log: seq<string>, n: nat): (w: seq<string>)
    ensures |w| <= n && |w| <= |log|
  {
    if |log| <= n then log else log[|log| - n..]
  }

  const LogWindow: nat := 50

  predicate IsCountLine(line: string) {
    Contains(line, "There are") && Contains(line, "players online")
  }

  /** The count as written: `int(line.split()[2])`, None on IndexError or ValueError. */
  function ReadingAsWritten(line: string): Option<int> {
    if !IsCountLine(line) then None
    else
      var f := Fields(line);
      if |f| > 2 then ParseInt(f[2]) else None
  }

  /**
   * The count as evidently intended: the number that follows "There are ",
   * whatever the log prefix before it.
   */
  function Reading(line: string): Option<int> {
    if !IsCountLine(line) then None
    else
      match IndexFrom(line, "There are ", 0)
      case None => None
      case Some(i) =>
        var f := Fields(line[i + 10..]);
        if f != [] then ParseInt(f[0]) else None
  }

  /**
   * `get_player_count`: 0 when the server is not running; otherwise the
   * newest count line of the last 50 log lines that can be read, else 0.
   */
  method PlayerCount(running: bool, log: seq<string>) returns (count: int)
    ensures !running ==> count == 0
    ensures running ==>
      var w := Window(log, LogWindow);
      (count == 0 && forall i :: 0 <= i < |w| ==> Reading(w[i]).None?) ||
      (exists i :: 0 <= i < |w| && Reading(w[i]) == Some(count) && forall j :: i < j < |w| ==> Reading(w[j]).None?)
  {
    if !running {
      return 0;
    }
    var w := Window(log, LogWindow);
    var i := |w|;
    while i > 0
      invariant 0 <= i <= |w|
      invariant forall j :: i <= j < |w| ==> Reading(w[j]).None?
    {
      i := i - 1;
      var r := Reading(w[i]);
      if r.Some? {
        return r.value;
      }
    }
    return 0;
  }

  /**
   * What the server writes before every line of its log: the time stamp,
   * then the thread and the level as two whitespace-separated tokens.
   */
  const Stamp := "[12:00:00]"
  const Thread := "[Server"
  const Level := "thread/" + "INFO]:"
  const LogPrefix := Stamp + " " + Thread + " " + Level + " "

  /**
   * The reply to `list` as it appears in the log. Its third
   * whitespace-separated token is part of the prefix (`Level`), so the count
   * as written is never read from it; the corrected reading finds the number.
   */
  lemma LoggedLineUnread(n: nat, tail: string)
    requires tail == [] || IsSpace(tail[0])
    requires Contains(tail, "players online")
    ensures ReadingAsWritten(LogPrefix + "There are " + NatToString(n) + tail) == None
    ensures Reading(LogPrefix + "There are " + NatToString(n) + tail) == Some(n)
  {
    CountLineShape(n, tail);
    AsWrittenSkips(n, tail);
    CorrectedFinds(n, tail);
  }

  lemma AsWrittenSkips(n: nat, tail: string)
    requires IsCountLine(LogPrefix + "There are " + NatToString(n) + tail)
    ensures ReadingAsWritten(LogPrefix + "There are " + NatToString(n) + tail) == None
  {
    var r := "There are " + NatToString(n) + tail;
    assert LogPrefix + r == LogPrefix + "There are " + NatToString(n) + tail;
    PrefixFields(r);
    assert ParseInt(Level) == None by {
      assert !AllDigits(Level) by { assert !IsDigit(Level[0]); }
    }
  }

  lemma CorrectedFinds(n: nat, tail: string)
    requires IsCountLine(LogPrefix + "There are " + NatToString(n) + tail)
    requires tail == [] || IsSpace(tail[0])
    ensures Reading(LogPrefix + "There are " + NatToString(n) + tail) == Some(n)
  {
    PrefixWithoutT();
    CountAfterMarker(LogPrefix, n, tail);
  }

  lemma CountLineShape(n: nat, tail: string)
    requires Contains(tail, "players online")
    ensures IsCountLine(LogPrefix + "There are " + NatToString(n) + tail)
  {
    var r := "There are " + NatToString(n) + tail;
    var line := LogPrefix + r;
    assert line == LogPrefix + "There are " + NatToString(n) + tail;
    assert OccursAt(line, "There are", |LogPrefix|) by {
      assert line[|LogPrefix|..|LogPrefix| + 9] == r[..9];
    }
    var q :| 0 <= q <= |tail| - 14 && OccursAt(tail, "players online", q);
    OccursInRight(LogPrefix + "There are " + NatToString(n), tail, "players online", q + |line| - |tail|);
  }

  lemma PrefixWithoutT()
    ensures 'T' !in LogPrefix
  {
    assert 'T' !in Stamp && 'T' !in Thread && 'T' !in "thread/" && 'T' !in "INFO]:";
  }

  /** The log prefix is three whitespace-separated tokens. */
  lemma PrefixFields(r: string)
    requires r != [] && !IsSpace(r[0])
    ensures Fields(LogPrefix + r) == [Stamp, Thread, Level] + Fields(r)
  {
    PrefixSpaceless();
    ThreeTokens(Stamp, Thread, Level, r);
    PrefixSplit(r);
  }

  lemma ThreeTokens(a: string, b: string, c: string, r: string)
    requires Spaceless(a) && Spaceless(b) && Spaceless(c)
    requires r != [] && !IsSpace(r[0])
    ensures Fields(a + " " + (b + " " + (c + " " + r))) == [a, b, c] + Fields(r)
  {
    SpacelessToken(a);
    SpacelessToken(b);
    SpacelessToken(c);
    ThreeTokensCore(a, b, c, r);
  }

  lemma ThreeTokensCore(a: string, b: string, c: string, r: string)
    requires Token(a) && Token(b) && Token(c)
    requires r != [] && !IsSpace(r[0])
    ensures Fields(a + " " + (b + " " + (c + " " + r))) == [a, b, c] + Fields(r)
  {
    var y := b + " " + (c + " " + r);
    TwoTokens(b, c, r);
    OneToken(a, y);
    Cons3(a, b, c, Fields(r));
  }

  lemma Cons3<T>(a: T, b: T, c: T, rest: seq<T>)
    ensures [a] + ([b, c] + rest) == [a, b, c] + rest
  {
  }

  lemma TwoTokens(b: string, c: string, r: string)
    requires Token(b) && Token(c)
    requires r != [] && !IsSpace(r[0])
    ensures var y := b + " " + (c + " " + r);
      y != [] && !IsSpace(y[0]) && Fields(y) == [b, c] + Fields(r)
  {
    OneToken(c, r);
    OneToken(b, c + " " + r);
    assert [b] + ([c] + Fields(r)) == [b, c] + Fields(r);
  }

  lemma PrefixSplit(r: string)
    ensures LogPrefix + r == Stamp + " " + (Thread + " " + (Level + " " + r))
  {
    var A, B, C := Stamp + " ", Thread + " ", Level + " ";
    assert LogPrefix == A + B + C;
    Assoc(A, B, C);
    Assoc(A, B + C, r);
    Assoc(B, C, r);
  }

  lemma Assoc(x: string, y: string, z: string)
    ensures (x + y) + z == x + (y + z)
  {
  }

  /** A non-empty text without whitespace. */
  predicate Token(s: string) {
    s != [] && TokenLength(s) == |s|
  }

  /** A non-empty text without whitespace, one character at a time. */
  predicate Spaceless(s: string) {
    s != [] && forall i :: 0 <= i < |s| ==> !IsSpace(s[i])
  }

  lemma PrefixSpaceless()
    ensures Spaceless(Stamp) && Spaceless(Thread) && Spaceless(Level)
  {
    StampSpaceless();
    ThreadSpaceless();
    LevelSpaceless();
  }

  lemma StampSpaceless()
    ensures Spaceless(Stamp)
  {
  }

  lemma ThreadSpaceless()
    ensures Spaceless(Thread)
  {
  }

  lemma LevelSpaceless()
    ensures Spaceless(Level)
  {
    var x, y := "thread/", "INFO]:";
    assert Spaceless(x);
    assert Spaceless(y);
    assert forall i :: 0 <= i < |x + y| ==> (x + y)[i] == if i < |x| then x[i] else y[i - |x|];
  }

  lemma SpacelessToken(s: string)
    requires Spaceless(s)
    ensures Token(s)
  {
    TokenAll(s);
  }


  /** A whole token followed by anything: the run goes on into what follows. */
  lemma {:induction false} TokenLengthAppend(x: string, y: string)
    requires TokenLength(x) == |x|
    ensures TokenLength(x + y) == |x| + TokenLength(y)
  {
    if x != [] {
      assert (x + y)[1..] == x[1..] + y;
      TokenLengthAppend(x[1..], y);
    } else {
      assert x + y == y;
    }
  }

  /** A token, a space and a text that starts with a token. */
  lemma OneToken(t: string, r: string)
    requires Token(t)
    requires r != [] && !IsSpace(r[0])
    ensures t + " " + r != [] && !IsSpace((t + " " + r)[0])
    ensures Fields(t + " " + r) == [t] + Fields(r)
  {
    assert t + " " + r == t + (" " + r);
    FieldsSkip(' ', r);
    assert " " + r == [' '] + r;
    FieldsToken(t, " " + r);
  }

  lemma FieldsSkip(c: char, rest: string)
    requires IsSpace(c)
    ensures Fields([c] + rest) == Fields(rest)
  {
    assert ([c] + rest)[1..] == rest;
  }

  lemma FieldsToken(tok: string, rest: string)
    requires Token(tok)
    requires rest == [] || IsSpace(rest[0])
    ensures Fields(tok + rest) == [tok] + Fields(rest)
  {
    var s := tok + rest;
    TokenLengthAppend(tok, rest);
    assert s[..|tok|] == tok && s[|tok|..] == rest;
  }

  /**
   * Whatever the prefix before "There are " (one without a 'T'), the
   * corrected reading is the number after it.
   */
  lemma CountAfterMarker(prefix: string, n: nat, tail: string)
    requires 'T' !in prefix
    requires tail == [] || IsSpace(tail[0])
    ensures var line := prefix + "There are " + NatToString(n) + tail;
      IndexFrom(line, "There are ", 0) == Some(|prefix|) &&
      Fields(line[|prefix| + 10..]) == [NatToString(n)] + Fields(tail) &&
      ParseInt(NatToString(n)) == Some(n)
  {
    var line := prefix + "There are " + NatToString(n) + tail;
    MarkerFirst(prefix, NatToString(n) + tail);
    assert line == prefix + "There are " + (NatToString(n) + tail);
    assert line[|prefix| + 10..] == NatToString(n) + tail;
    DigitsToken(n);
    FieldsToken(NatToString(n), tail);
    ParseIntOfIntToString(n);
  }

  lemma DigitsToken(n: nat)
    ensures Token(NatToString(n))
  {
    var t := NatToString(n);
    forall i | 0 <= i < |t| ensures !IsSpace(t[i]) {
      assert IsDigit(t[i]);
    }
    TokenAll(t);
  }

  /** After a prefix without a 'T', the first "There are " is the one that follows the prefix. */
  lemma MarkerFirst(prefix: string, rest: string)
    requires 'T' !in prefix
    ensures IndexFrom(prefix + "There are " + rest, "There are ", 0) == Some(|prefix|)
  {
    var line := prefix + "There are " + rest;
    assert OccursAt(line, "There are ", |prefix|) by {
      assert line[|prefix|..|prefix| + 10] == "There are ";
    }
    forall p | 0 <= p < |prefix| ensures !OccursAt(line, "There are ", p) {
      assert line[p] == prefix[p];
      assert prefix[p] in prefix;
      if p + 10 <= |line| {
        assert line[p..p + 10][0] == line[p];
      }
    }
  }

  lemma {:induction false} TokenAll(s: string)
    requires forall i :: 0 <= i < |s| ==> !IsSpace(s[i])
    ensures TokenLength(s) == |s|
  {
    if s != [] {
      TokenAll(s[1..]);
    }
  }

  // ---------------------------------------------------------- control_server

  /** What `control_server` did: its result, the process helpers it called, and the error notice. */
  datatype Control = Control(ok: bool, calls: seq<string>, notice: Option<Notice>)

  /**
   * `control_server(action)`: stop and start do nothing when the server is
   * already in the wanted state; restart stops a running server and starts
   * it unless stopping returned False; any other action, and any exception
   * of a helper (`stop` and `start` are their results or the text they
   * raise with), returns False with an error notice.
   */
  function ControlServer(action: string, running: bool, stop: Result<bool, string>, start: Result<bool, string>): (r: Control)
    ensures r.notice.Some? ==> !r.ok && r.notice.value.isError && r.notice.value.title == "Server " + action + " Error"
    ensures action != "stop" && action != "start" && action != "restart" ==>
      r == Control(false, [], Some(OperationError("Server " + action, "Invalid server action: " + action)))
    ensures action == "stop" ==> (r.ok <==> !running || stop == Ok(true))
    ensures action == "start" ==> (r.ok <==> running || start == Ok(true))
    ensures action == "restart" ==> (r.ok <==> (!running || stop == Ok(true)) && start == Ok(true))
    ensures action == "restart" && running && stop != Ok(true) ==> !r.ok && "start" !in r.calls
    ensures (action == "stop" && !running) || (action == "start" && running) ==> r == Control(true, [], None)
  {
    if action == "stop" then
      if !running then Control(true, [], None)
      else Helper("stop", action, stop)
    else if action == "start" then
      if running then Control(true, [], None)
      else Helper("start", action, start)
    else if action == "restart" then
      if running && stop != Ok(true) then
        var s := Helper("stop", action, stop);
        Control(false, s.calls, s.notice)
      else
        var s := Helper("start", action, start);
        Control(s.ok, (if running then ["stop"] else []) + s.calls, s.notice)
    else
      Control(false, [], Some(OperationError("Server " + action, "Invalid server action: " + action)))
  }

  /** One call of `_stop_server_process` or `_start_server_process`, which wrap what they raise. */
  function Helper(which: string, action: string, result: Result<bool, string>): (r: Control)
    ensures r.calls == [which]
    ensures r.ok <==> result == Ok(true)
    ensures r.notice.Some? <==> result.Err?
    ensures r.notice.Some? ==> r.notice.value.isError && r.notice.value.title == "Server " + action + " Error"
  {
    match result
    case Ok(b) => Control(b, [which], None)
    case Err(e) => Control(false, [which], Some(OperationError("Server " + action, "Failed to " + which + " server: " + e)))
  }
}
