/**
 * minecraft_mod_manager/managers/mod.py: the package's mod manager. It looks
 * every configured Modrinth URL up in chunks, downloads what changed, and
 * sends the summary of the run.
 *
 * The look-up and download stages are those of the shared ModUpdates
 * pipeline; this file fixes the texts it writes (its list marks, its
 * notices and the summary message) and its request pause of one second.
 * The Modrinth API, the HEAD and GET of each download and the clock are
 * parameters; the mods directory is a `Directory`.
 */
module ModManager {
  import opened Results
  import opened Text
  import opened FileSystem
  import opened Discord
  import Modrinth
  import Batching
  import ModUpdates

  // ---------------------------------------------------------- _fetch_mod_info

  /** The Modrinth API: for each endpoint, the reply to each attempt. */
  datatype Api = Api(projects: string -> nat -> Modrinth.Reply<Modrinth.Project>,
                     versions: string -> nat -> Modrinth.Reply<seq<Modrinth.Release>>)

  /** The configuration `_fetch_mod_info` and `make_request` read. */
  datatype Settings = Settings(version: string, modloader: string, maxRetries: int, baseDelay: nat)

  /** `make_request` sleeps one second before every GET. */
  const RequestPause: nat := 1

  const ApiBase := "https://api.modrinth.com/v2/project/"

  /** One mod's look-up and the sleeps it took, in order. */
  datatype Fetch = Fetch(lookup: Modrinth.Lookup, sleeps: seq<nat>)

  /** `f"{mod_name} ({str(e)})"`, the line of the `except` clause. */
  function FailureLine(name: string, message: string): string {
    name + " (" + message + ")"
  }

  /** The comprehension of `_fetch_mod_info`: the releases for the version with a loader equal to the modloader, ignoring case. */
  function CompatibleVersions(releases: seq<Modrinth.Release>, version: string, modloader: string): seq<Modrinth.Release> {
    if releases == [] then []
    else
      (if Modrinth.CompatibleByAny(releases[0], version, modloader) then [releases[0]] else []) +
      CompatibleVersions(releases[1..], version, modloader)
  }

  /**
   * The comprehension keeps exactly the releases `_check_version_compatibility`
   * accepts, in the same order: the release choice can use either form.
   */
  lemma {:induction false} FilterFormsAgree(releases: seq<Modrinth.Release>, version: string, modloader: string)
    ensures CompatibleVersions(releases, version, modloader) == Modrinth.CompatibleReleases(releases, version, modloader)
  {
    if releases != [] {
      Modrinth.CompatibilityFormsAgree(releases[0], version, modloader);
      FilterFormsAgree(releases[1..], version, modloader);
    }
  }

  /**
   * `_fetch_mod_info` for one URL: the project (for its title), then the
   * version list, then the first compatible release. A failure is reported
   * under the project id until the title is known, under the title after.
   */
  function FetchModInfo(url: string, api: Api, s: Settings): (r: Fetch)
    ensures |r.sleeps| >= 1 && r.sleeps[0] == RequestPause
  {
    var id := ModUpdates.LastSegment(url);
    var pe := Modrinth.MakeRequest(api.projects(ApiBase + id), 0, s.maxRetries, s.baseDelay, RequestPause);
    match Modrinth.Raised(pe, s.maxRetries)
    case Err(m) => Fetch(Modrinth.Failed(FailureLine(id, m)), pe.sleeps)
    case Ok(p) =>
      var name := if p.title.Some? then p.title.value else id;
      var ve := Modrinth.MakeRequest(api.versions(ApiBase + id + "/version"), 0, s.maxRetries, s.baseDelay, RequestPause);
      var lookup := match Modrinth.Raised(ve, s.maxRetries)
        case Err(m) => Modrinth.Failed(FailureLine(name, m))
        case Ok(rs) => Modrinth.Choose(rs, s.version, s.modloader, name);
      Fetch(lookup, pe.sleeps + ve.sleeps)
  }

  /**
   * Both endpoints answer at once: the stored record is that of the first
   * compatible release (its first file), or, with none, one line naming the
   * title, the game version and the loader; one pause per request.
   */
  lemma AnsweredAtOnce(url: string, api: Api, s: Settings, title: string, releases: seq<Modrinth.Release>)
    requires var id := ModUpdates.LastSegment(url);
      api.projects(ApiBase + id)(0) == Modrinth.Reply(200, Modrinth.Project(Some(title))) &&
      api.versions(ApiBase + id + "/version")(0) == Modrinth.Reply(200, releases)
    ensures var f := FetchModInfo(url, api, s);
      f.sleeps == [RequestPause, RequestPause] &&
      (f.lookup.Found? <==> exists k :: Modrinth.FirstCompatibleAt(releases, s.version, s.modloader, k) && releases[k].files != []) &&
      (f.lookup.Found? ==>
         exists k :: Modrinth.FirstCompatibleAt(releases, s.version, s.modloader, k) && releases[k].files != [] && f.lookup.info == Modrinth.Describe(releases[k], title)) &&
      ((forall x :: x in releases ==> !Modrinth.CompatibleByAny(x, s.version, s.modloader)) ==>
         f.lookup == Modrinth.Failed(Modrinth.NoCompatibleMessage(title, s.version, s.modloader)))
  {
    var id := ModUpdates.LastSegment(url);
    Modrinth.FirstAnswerOk(api.projects(ApiBase + id), 0, s.maxRetries, s.baseDelay, RequestPause);
    Modrinth.FirstAnswerOk(api.versions(ApiBase + id + "/version"), 0, s.maxRetries, s.baseDelay, RequestPause);
    forall x | x in releases ensures Modrinth.CompatibleByAny(x, s.version, s.modloader) <==> Modrinth.CompatibleByMembership(x, s.version, s.modloader) {
      Modrinth.CompatibilityFormsAgree(x, s.version, s.modloader);
    }
  }

  /**
   * A project endpoint that always answers 429 is asked `max_retries + 1`
   * times; the mod fails under its project id with the rate-limit message,
   * wrapped once per attempt, and the version list is never requested.
   */
  lemma ProjectRateLimited(url: string, api: Api, s: Settings)
    requires forall k :: Modrinth.RateLimited(api.projects(ApiBase + ModUpdates.LastSegment(url))(k))
    requires s.maxRetries >= 0
    ensures var f := FetchModInfo(url, api, s);
      f.lookup == Modrinth.Failed(FailureLine(ModUpdates.LastSegment(url), Modrinth.Wrap(Modrinth.RateLimitMessage(s.maxRetries), s.maxRetries + 1))) &&
      |f.sleeps| == 2 * s.maxRetries + 1
  {
    var id := ModUpdates.LastSegment(url);
    Modrinth.AlwaysRateLimited(api.projects(ApiBase + id), 0, s.maxRetries, s.baseDelay, RequestPause);
  }

  function Lookups(api: Api, s: Settings): string -> Modrinth.Lookup {
    url => FetchModInfo(url, api, s).lookup
  }

  // ------------------------------------------------- fetch_latest_versions

  /** The pause between chunks of URLs. */
  const ChunkPause: nat := 2

  /** `_notify_failures`. */
  function IssuesNotice(failed: seq<string>): Notice {
    Notice("Mod Update Issues", "Failed to process the following mods:\n" + Join(failed, "\n"), true)
  }

  /** What the chunked loop collects: nothing for a negative chunk size, every URL otherwise. */
  function Collect(urls: seq<string>, chunkSize: int, lookup: string -> Modrinth.Lookup): ModUpdates.Collected {
    if chunkSize > 0 then Batching.Fold(ModUpdates.Handler(lookup), ModUpdates.Nothing, urls) else ModUpdates.Nothing
  }

  /**
   * `fetch_latest_versions`: look every URL up, `chunk_size` at a time with
   * a pause between chunks. A found mod is stored under its URL and a failed
   * one adds its line; the `finally` clause sends one "Mod Update Issues"
   * notice when any failed. A zero chunk size is `range`'s ValueError.
   */
  method FetchLatestVersions(urls: seq<string>, chunkSize: int, lookup: string -> Modrinth.Lookup)
    returns (r: Result<ModUpdates.Collected, string>, steps: seq<Batching.Step<string>>, notice: Option<Notice>)
    ensures chunkSize == 0 ==> r == Err(Batching.ZeroStepMessage) && steps == [] && notice.None?
    ensures chunkSize != 0 ==> r == Ok(Collect(urls, chunkSize, lookup))
    ensures chunkSize < 0 ==> steps == [] && r == Ok(ModUpdates.Nothing)
    ensures chunkSize > 0 ==> steps == Batching.StepsFrom(urls, chunkSize, ChunkPause, 0)
    ensures r.Ok? ==> ModUpdates.WellOrdered(r.value)
    ensures chunkSize > 0 ==>
      (forall u :: u in r.value.modInfo <==> u in urls && lookup(u).Found?) &&
      (forall u :: u in r.value.modInfo ==> r.value.modInfo[u] == lookup(u).info) &&
      r.value.failed == ModUpdates.FailureLines(urls, lookup)
    ensures notice == if r.Ok? && r.value.failed != [] then Some(IssuesNotice(r.value.failed)) else None
  {
    var run := Batching.RunBatches(urls, chunkSize, ChunkPause, ModUpdates.Handler(lookup), ModUpdates.Nothing);
    if run.Err? {
      return Err(run.error), [], None;
    }
    var c := run.value.0;
    steps := run.value.1;
    ModUpdates.CollectedContents(urls, lookup);
    r := Ok(c);
    notice := if c.failed != [] then Some(IssuesNotice(c.failed)) else None;
  }

  // -------------------------------------------------------- update summary

  /** This file's bullet and arrow, as its source text spells them. */
  const Bullets := ModUpdates.Marks("\U{201A}\U{00C4}\U{00A2}", "\U{201A}\U{00DC}\U{00ED}")

  const UpToDateNotice := Notice("Mod Updates", "\U{201A}\U{00FA}\U{00D6} All mods are up to date!", false)

  function SummaryHeader(total: nat): string {
    "\U{F8FF}\U{00FC}\U{00EC}\U{00E4} Mod Update Summary (" + NatToString(total) + " total):"
  }

  const UpdatedTitle := "\U{201A}\U{00FA}\U{00D6} Updated:"
  const SkippedTitle := "\U{201A}\U{00E8}\U{2260}\U{00D4}\U{220F}\U{00E8} Skipped (up to date):"
  const FailedTitle := "\U{201A}\U{00F9}\U{00E5} Failed:"

  /** A titled list followed by a blank line, or nothing for an empty list. */
  function Section(title: string, items: seq<string>): seq<string> {
    if items == [] then [] else [title] + items + [""]
  }

  /**
   * The lines of the summary message: the header with the total and a blank
   * line, then the updated, skipped and failed lists in that order, each
   * only when it has entries. The failed list is not followed by a blank
   * line; without it the message ends in an empty line.
   */
  function SummaryLines(updated: seq<string>, skipped: seq<string>, failed: seq<string>, total: nat): (r: seq<string>)
    ensures |r| >= 3 && r[0] == SummaryHeader(total) && r[1] == ""
  {
    [SummaryHeader(total), ""] + Section(UpdatedTitle, updated) + Section(SkippedTitle, skipped) +
    (if failed != [] then [FailedTitle] + failed else [""])
  }

  function SummaryNotice(updated: seq<string>, skipped: seq<string>, failed: seq<string>, total: nat): Notice {
    Notice("Mod Update Complete", Join(SummaryLines(updated, skipped, failed, total), "\n"), false)
  }

  /**
   * `_send_update_summary`: the message is built with `+=`, one block per
   * non-empty list; it is the summary's lines joined by newlines.
   */
  method SendUpdateSummary(updated: seq<string>, skipped: seq<string>, failed: seq<string>, total: nat) returns (n: Notice)
    ensures n == SummaryNotice(updated, skipped, failed, total)
  {
    var message := SummaryHeader(total) + "\n\n";
    ghost var lines := [SummaryHeader(total), ""];
    HeaderBlock(SummaryHeader(total));
    assert message == Join(lines, "\n") + "\n";
    if updated != [] {
      AddBlock(lines, UpdatedTitle, updated);
      message := message + UpdatedTitle + "\n" + Join(updated, "\n") + "\n\n";
      lines := lines + Section(UpdatedTitle, updated);
    } else {
      NoSection(lines, UpdatedTitle);
      lines := lines + Section(UpdatedTitle, updated);
    }
    assert message == Join(lines, "\n") + "\n";
    if skipped != [] {
      AddBlock(lines, SkippedTitle, skipped);
      message := message + SkippedTitle + "\n" + Join(skipped, "\n") + "\n\n";
      lines := lines + Section(SkippedTitle, skipped);
    } else {
      NoSection(lines, SkippedTitle);
      lines := lines + Section(SkippedTitle, skipped);
    }
    assert message == Join(lines, "\n") + "\n";
    assert lines + (if failed != [] then [FailedTitle] + failed else [""]) == SummaryLines(updated, skipped, failed, total);
    if failed != [] {
      AddLast(lines, FailedTitle, failed);
      message := message + FailedTitle + "\n" + Join(failed, "\n");
    } else {
      CloseEmpty(lines);
    }
    n := Notice("Mod Update Complete", message, false);
  }

  lemma NoSection(lines: seq<string>, title: string)
    ensures lines + Section(title, []) == lines
  {
  }

  lemma HeaderBlock(h: string)
    ensures h + "\n\n" == Join([h, ""], "\n") + "\n"
  {
    assert Join([h, ""], "\n") == h + "\n" + Join([""], "\n");
  }

  lemma CloseEmpty(lines: seq<string>)
    requires lines != []
    ensures Join(lines, "\n") + "\n" == Join(lines + [""], "\n")
  {
    JoinConcat(lines, [""], "\n");
  }

  /** One more titled block, written as `title\n` + the joined items + `\n\n`. */
  lemma AddBlock(lines: seq<string>, title: string, items: seq<string>)
    requires lines != [] && items != []
    ensures Join(lines, "\n") + "\n" + title + "\n" + Join(items, "\n") + "\n\n" ==
      Join(lines + Section(title, items), "\n") + "\n"
  {
    var block := [title] + items + [""];
    JoinConcat([title], items, "\n");
    JoinConcat([title] + items, [""], "\n");
    JoinConcat(lines, block, "\n");
    assert Join(block, "\n") == title + "\n" + Join(items, "\n") + "\n";
  }

  /** The failed block closes the message: `title\n` + the joined items. */
  lemma AddLast(lines: seq<string>, title: string, items: seq<string>)
    requires lines != [] && items != []
    ensures Join(lines, "\n") + "\n" + title + "\n" + Join(items, "\n") == Join(lines + ([title] + items), "\n")
  {
    JoinConcat([title], items, "\n");
    JoinConcat(lines, [title] + items, "\n");
  }

  /**
   * The lists can be read back from the message: with no newline inside an
   * entry, splitting the message at newlines gives the summary's lines, so
   * each list appears, in order, exactly when it has entries.
   */
  lemma SummaryReadsBack(updated: seq<string>, skipped: seq<string>, failed: seq<string>, total: nat)
    requires forall k :: 0 <= k < |updated| ==> '\n' !in updated[k]
    requires forall k :: 0 <= k < |skipped| ==> '\n' !in skipped[k]
    requires forall k :: 0 <= k < |failed| ==> '\n' !in failed[k]
    ensures Split(SummaryNotice(updated, skipped, failed, total).message, '\n') == SummaryLines(updated, skipped, failed, total)
  {
    var lines := SummaryLines(updated, skipped, failed, total);
    TitlesOneLine(total);
    forall k | 0 <= k < |lines| ensures '\n' !in lines[k] {
      SummaryLineOf(updated, skipped, failed, total, k);
    }
    SplitJoin(lines, '\n');
  }

  /** Every summary line is a header, a title, an empty line or a list entry. */
  lemma SummaryLineOf(updated: seq<string>, skipped: seq<string>, failed: seq<string>, total: nat, k: nat)
    requires k < |SummaryLines(updated, skipped, failed, total)|
    ensures var l := SummaryLines(updated, skipped, failed, total)[k];
      l == SummaryHeader(total) || l == "" || l == UpdatedTitle || l == SkippedTitle || l == FailedTitle ||
      l in updated || l in skipped || l in failed
  {
    var a := [SummaryHeader(total), ""];
    var u := Section(UpdatedTitle, updated);
    var s := Section(SkippedTitle, skipped);
    var f := if failed != [] then [FailedTitle] + failed else [""];
    var lines := a + u + s + f;
    assert lines == SummaryLines(updated, skipped, failed, total);
    if k < |a| {
    } else if k < |a| + |u| {
      assert lines[k] == u[k - |a|];
    } else if k < |a| + |u| + |s| {
      assert lines[k] == s[k - |a| - |u|];
    } else {
      assert lines[k] == f[k - |a| - |u| - |s|];
    }
  }

  lemma TitlesOneLine(total: nat)
    ensures '\n' !in SummaryHeader(total)
    ensures '\n' !in UpdatedTitle && '\n' !in SkippedTitle && '\n' !in FailedTitle
  {
    var digits := NatToString(total);
    assert forall i :: 0 <= i < |digits| ==> IsDigit(digits[i]);
    assert '\n' !in digits;
  }

  /**
   * The summary counts every mod of `mod_info` once: the updated, skipped
   * and failed lists together have one entry per mod.
   */
  lemma SummaryCountsAll(c: ModUpdates.Collected, entries: seq<Entry>, locked: set<string>,
                         transfer: Modrinth.ModInfo -> ModUpdates.Transfer, now: int, unlinkError: (string, Removal) -> string)
    requires ModUpdates.WellOrdered(c)
    ensures var o := ModUpdates.Updates(entries, locked, ModUpdates.InOrder(c), transfer, now, Bullets, unlinkError);
      |o.updated| + |o.skipped| + |o.failed| == |c.modInfo|
  {
    ModUpdates.OrderCoversKeys(c);
  }

  // ------------------------------------------------------------ update_mods

  /**
   * `update_mods`: look the mods up; with nothing found send the up-to-date
   * notice and stop; otherwise update each mod of `mod_info` in key order
   * and send the summary. The only error that escapes the stages is
   * `range`'s, which is reported and re-raised. `unlinkError` is the text
   * of the error `unlink` raises for a file it cannot remove.
   */
  method UpdateMods(d: Directory, urls: seq<string>, chunkSize: int, lookup: string -> Modrinth.Lookup,
                    transfer: Modrinth.ModInfo -> ModUpdates.Transfer, now: int, unlinkError: (string, Removal) -> string)
    returns (notices: seq<Notice>, raised: Option<string>)
    modifies d
    ensures d.locked == old(d.locked)
    ensures chunkSize == 0 ==>
      raised == Some(Batching.ZeroStepMessage) && d.entries == old(d.entries) &&
      notices == [Notice("Mod Update Error", Batching.ZeroStepMessage, true)]
    ensures chunkSize != 0 ==>
      var c := Collect(urls, chunkSize, lookup);
      var issues := if c.failed != [] then [IssuesNotice(c.failed)] else [];
      ModUpdates.WellOrdered(c) && raised.None? &&
      (c.modInfo == map[] ==> d.entries == old(d.entries) && notices == issues + [UpToDateNotice]) &&
      (c.modInfo != map[] ==>
        var o := ModUpdates.Updates(old(d.entries), old(d.locked), ModUpdates.InOrder(c), transfer, now, Bullets, unlinkError);
        d.entries == o.entries && notices == issues + [SummaryNotice(o.updated, o.skipped, o.failed, |c.modInfo|)])
  {
    var r, steps, notice := FetchLatestVersions(urls, chunkSize, lookup);
    if r.Err? {
      return [Notice("Mod Update Error", r.error, true)], Some(r.error);
    }
    var c := r.value;
    notices := if notice.Some? then [notice.value] else [];
    raised := None;
    if c.modInfo == map[] {
      notices := notices + [UpToDateNotice];
      return;
    }
    var tracker := new ModUpdates.Tracker();
    ModUpdates.UpdateAll(tracker, d, c, transfer, now, Bullets, unlinkError);
    var summary := SendUpdateSummary(tracker.updated, tracker.skipped, tracker.failed, |c.modInfo|);
    notices := notices + [summary];
  }
}
