/**
 * The mod service of the older Go layer (internal/services/mod_service.go):
 * its health checks, the update of every configured Modrinth source, the
 * project-id parse, the dispatch on the source type, the choice of the
 * latest version and the listing of installed jars.
 *
 * The network is a parameter `Api`: what the project request and the version
 * request receive (keyed by their URL), and what the download of a file
 * reports. The code updates the sources concurrently, each independently of
 * the others and merged under a mutex; here they are updated one after
 * another in configured order.
 *
 * The health statuses of this service are emoji, written as code points
 * ("\U{2705}", "\U{274C}", "\U{26A0}\U{FE0F}").
 */
module ModService {
  import opened Results
  import opened Text
  import Urls

  /** A health-check result; the status is free text ("OK", "WARN", "ERROR", or an emoji here). */
  datatype HealthCheck = HealthCheck(name: string, status: string, message: string)

  const Passed := "\U{2705}"
  const Broken := "\U{274C}"
  const Warned := "\U{26A0}\U{FE0F}"

  // ------------------------------------------------------------- requests

  /** What one GET brings back: the status and the decoded body (or the decode error), or a transport error. */
  datatype Fetch<T> = Fetched(status: int, body: Result<T, string>) | FetchFailed(err: string)

  /** A status other than 200 fails before the body is read; then the body's decoding decides. */
  function Received<T>(f: Fetch<T>): (r: Result<T, string>)
    ensures r.Ok? <==> f.Fetched? && f.status == 200 && f.body.Ok?
    ensures r.Ok? ==> r.value == f.body.value
    ensures f.Fetched? && f.status != 200 ==> r == Err("API request failed with status " + IntToString(f.status))
  {
    match f
    case FetchFailed(e) => Err(e)
    case Fetched(status, body) =>
      if status != 200 then Err("API request failed with status " + IntToString(status)) else body
  }

  /** One file of a version object. */
  datatype FileObject = FileObject(url: string, filename: string)

  /** A decoded version object; `files` is None when the key is missing or is not a list. */
  datatype Version = Version(id: string, versionNumber: string, files: Option<seq<FileObject>>)

  datatype ModInfo = ModInfo(versionId: string, version: string, downloadUrl: string, filename: string, projectName: string)

  /** The network as the service sees it. */
  datatype Api = Api(
    project: string -> Fetch<()>,
    versions: string -> Fetch<seq<Version>>,
    download: (string, string) -> Option<string>)

  function ProjectUrl(projectId: string): string {
    "https://api.modrinth.com/v2/project/" + projectId
  }

  function VersionsUrl(projectId: string, version: string, modloader: string): string {
    ProjectUrl(projectId) + "/version?game_versions=[\"" + version + "\"]&loaders=[\"" + modloader + "\"]"
  }

  /** The version list's first version, with its first file, describes the mod; the project id is its name. */
  function LatestVersion(projectId: string, versions: seq<Version>): (r: Result<ModInfo, string>)
    ensures r.Ok? <==> versions != [] && versions[0].files.Some? && versions[0].files.value != []
    ensures versions == [] ==> r == Err("no compatible versions found")
    ensures versions != [] && r.Err? ==> r == Err("no files found in version")
    ensures r.Ok? ==> r.value.projectName == projectId && r.value.versionId == versions[0].id
    ensures r.Ok? ==> FileObject(r.value.downloadUrl, r.value.filename) == versions[0].files.value[0]
  {
    if versions == [] then Err("no compatible versions found")
    else
      var v := versions[0];
      if v.files.None? || v.files.value == [] then Err("no files found in version")
      else
        var f := v.files.value[0];
        Ok(ModInfo(v.id, v.versionNumber, f.url, f.filename, projectId))
  }

  /** `fetchModrinthLatestVersion`: the request, then the choice. */
  function FetchLatestVersion(projectId: string, version: string, modloader: string, api: Api): Result<ModInfo, string> {
    match Received(api.versions(VersionsUrl(projectId, version, modloader)))
    case Err(e) => Err(e)
    case Ok(versions) => LatestVersion(projectId, versions)
  }

  // -------------------------------------------------------- the project id

  /**
   * `parseModrinthProjectID`: the first `/mod/([^/]+)` group of the URL's
   * path, which `url.Parse` has already percent-decoded.
   */
  function ParseModrinthProjectID(modUrl: string): (r: Result<string, string>)
    ensures r.Ok? ==> |r.value| > 0 && '/' !in r.value
    ensures r.Ok? ==> Urls.GoUrlPath(modUrl).Ok? && Urls.SearchGroup(Urls.GoUrlPath(modUrl).value, "/mod/") == Some(r.value)
    ensures Urls.GoUrlPath(modUrl).Err? ==> r == Err(Urls.GoUrlPath(modUrl).error)
    ensures Urls.GoUrlPath(modUrl).Ok? && r.Err? ==> r.error == "invalid Modrinth URL format: " + modUrl
  {
    match Urls.GoUrlPath(modUrl)
    case Err(e) => Err(e)
    case Ok(path) =>
      match Urls.SearchGroup(path, "/mod/")
      case None => Err("invalid Modrinth URL format: " + modUrl)
      case Some(id) => Ok(id)
  }

  /** A web page URL `scheme://host/mod/<id>[/...]` with a plain host and no escapes names project `id`. */
  lemma ParsesModPage(scheme: string, host: string, id: string, tail: string)
    requires |scheme| > 0 && forall k :: 0 <= k < |scheme| ==> Urls.IsAsciiLetter(scheme[k])
    requires forall c :: c in host ==> Urls.HostChar(c) && c != ':' && c != '['
    requires |id| > 0 && '/' !in id
    requires tail == [] || tail[0] == '/'
    requires forall c :: c in id + tail ==> c != '?' && c != '#' && c != '%' && !Urls.IsCtl(c)
    ensures ParseModrinthProjectID(scheme + "://" + host + "/mod/" + id + tail) == Ok(id)
  {
    var path := "/mod/" + id + tail;
    ModPagePath(scheme, host, id, tail);
    assert [] + "/mod/" + id + tail == path;
    Urls.SearchGroupFinds([], "/mod/", id, tail);
  }

  lemma ModPagePath(scheme: string, host: string, id: string, tail: string)
    requires |scheme| > 0 && forall k :: 0 <= k < |scheme| ==> Urls.IsAsciiLetter(scheme[k])
    requires forall c :: c in host ==> Urls.HostChar(c) && c != ':' && c != '['
    requires forall c :: c in id + tail ==> c != '?' && c != '#' && c != '%' && !Urls.IsCtl(c)
    ensures Urls.GoUrlPath(scheme + "://" + host + "/mod/" + id + tail) == Ok("/mod/" + id + tail)
  {
    var path := "/mod/" + id + tail;
    assert '?' !in path && '#' !in path && '%' !in path && !Urls.HasCtl(path) by {
      forall k | 0 <= k < |path| ensures path[k] != '?' && path[k] != '#' && path[k] != '%' && !Urls.IsCtl(path[k]) {
        if 5 <= k { assert path[k] == (id + tail)[k - 5]; assert path[k] in id + tail; }
      }
    }
    assert scheme + "://" + host + "/mod/" + id + tail == scheme + "://" + host + path;
    Urls.GoWebUrlPath(scheme, host, path);
  }

  /**
   * The id is taken after decoding: an escaped '/' in the page URL ends it,
   * so `scheme://host/mod/a%2Fb` names project `a`.
   */
  lemma EscapedSlashEndsId(scheme: string, host: string, a: string, b: string)
    requires |scheme| > 0 && forall k :: 0 <= k < |scheme| ==> Urls.IsAsciiLetter(scheme[k])
    requires forall c :: c in host ==> Urls.HostChar(c) && c != ':' && c != '['
    requires |a| > 0 && '/' !in a
    requires forall c :: c in a + b ==> c != '?' && c != '#' && c != '%' && !Urls.IsCtl(c)
    ensures ParseModrinthProjectID(scheme + "://" + host + "/mod/" + a + "%2F" + b) == Ok(a)
  {
    EscapedPagePath(scheme, host, a, b);
    SlashEndsGroup(a, b);
  }

  /** In the decoded path the group ends at the decoded '/'. */
  lemma SlashEndsGroup(a: string, b: string)
    requires |a| > 0 && '/' !in a
    ensures Urls.SearchGroup("/mod/" + a + "/" + b, "/mod/") == Some(a)
  {
    var tail := "/" + b;
    assert tail[0] == '/';
    Urls.SearchGroupFinds([], "/mod/", a, tail);
    assert [] + "/mod/" + a + tail == "/mod/" + a + "/" + b;
  }

  /** The path of such a page URL is decoded with its escaped '/'. */
  lemma EscapedPagePath(scheme: string, host: string, a: string, b: string)
    requires |scheme| > 0 && forall k :: 0 <= k < |scheme| ==> Urls.IsAsciiLetter(scheme[k])
    requires forall c :: c in host ==> Urls.HostChar(c) && c != ':' && c != '['
    requires forall c :: c in a + b ==> c != '?' && c != '#' && c != '%' && !Urls.IsCtl(c)
    ensures Urls.GoUrlPath(scheme + "://" + host + "/mod/" + a + "%2F" + b) == Ok("/mod/" + a + "/" + b)
  {
    var path := "/mod/" + a + "%2F" + b;
    assert '?' !in path && '#' !in path && !Urls.HasCtl(path) by {
      forall k | 0 <= k < |path| ensures path[k] != '?' && path[k] != '#' && !Urls.IsCtl(path[k]) {
        if 5 <= k < 5 + |a| {
          assert path[k] == a[k - 5] && a[k - 5] in a + b;
        } else if 8 + |a| <= k {
          assert path[k] == b[k - 8 - |a|] && b[k - 8 - |a|] in a + b;
        }
      }
    }
    assert '%' !in "/mod/" + a && '%' !in b by {
      forall c | c in a ensures c in a + b { }
      forall c | c in b ensures c in a + b { }
    }
    assert scheme + "://" + host + "/mod/" + a + "%2F" + b == scheme + "://" + host + path;
    Urls.GoWebUrl(scheme, host, path);
    Urls.EscapedSlashDecoded("/mod/" + a, b);
  }

  // ---------------------------------------------------------------- update

  /** A configured source: its type ("modrinth", "curseforge", "github") and its URL. */
  datatype ModSource = ModSource(kind: string, url: string)

  const CurseForgeNotImplemented := "CurseForge mod updating is not yet implemented - coming in v2.1.0"
  const GitHubNotImplemented := "GitHub mod updating is not yet implemented - coming in v2.1.0"

  /**
   * `updateModrinthMod`: parse the id, fetch the project (only its success
   * matters), fetch the latest version, download its file. Each failure is
   * wrapped with the step it came from; the download's own error is not.
   */
  function UpdateModrinthMod(modUrl: string, version: string, modloader: string, api: Api): (err: Option<string>)
    ensures ParseModrinthProjectID(modUrl).Err? ==>
      err == Some("failed to parse Modrinth project ID: " + ParseModrinthProjectID(modUrl).error)
    ensures err.None? ==> (ParseModrinthProjectID(modUrl).Ok? &&
      exists info :: FetchLatestVersion(ParseModrinthProjectID(modUrl).value, version, modloader, api) == Ok(info) &&
        api.download(info.downloadUrl, info.filename).None?)
  {
    match ParseModrinthProjectID(modUrl)
    case Err(e) => Some("failed to parse Modrinth project ID: " + e)
    case Ok(id) =>
      match Received(api.project(ProjectUrl(id)))
      case Err(e) => Some("failed to fetch project info: " + e)
      case Ok(_) =>
        match FetchLatestVersion(id, version, modloader, api)
        case Err(e) => Some("failed to fetch latest version: " + e)
        case Ok(info) => api.download(info.downloadUrl, info.filename)
  }

  /** `updateSingleMod`: only Modrinth sources are updated; the other known types are not implemented yet. */
  function UpdateSingleMod(source: ModSource, version: string, modloader: string, api: Api): (err: Option<string>)
    ensures err.None? ==> source.kind == "modrinth"
    ensures source.kind == "curseforge" ==> err == Some(CurseForgeNotImplemented)
    ensures source.kind == "github" ==> err == Some(GitHubNotImplemented)
    ensures source.kind !in {"modrinth", "curseforge", "github"} ==> err == Some("unsupported mod source type: " + source.kind)
  {
    match source.kind
    case "modrinth" => UpdateModrinthMod(source.url, version, modloader, api)
    case "curseforge" => Some(CurseForgeNotImplemented)
    case "github" => Some(GitHubNotImplemented)
    case _ => Some("unsupported mod source type: " + source.kind)
  }

  /** An unparsable URL fails the same way whatever the network would have answered. */
  lemma BadUrlMakesNoRequest(modUrl: string, version: string, modloader: string, api: Api, other: Api)
    requires ParseModrinthProjectID(modUrl).Err?
    ensures UpdateSingleMod(ModSource("modrinth", modUrl), version, modloader, api) ==
      UpdateSingleMod(ModSource("modrinth", modUrl), version, modloader, other)
  {
  }

  /** `ModUpdateResult`. */
  datatype UpdateResult = UpdateResult(updated: seq<string>, failed: map<string, string>, skipped: seq<string>)

  /** What updating each Modrinth source reports. */
  function Outcomes(version: string, modloader: string, api: Api): string -> Option<string> {
    url => UpdateSingleMod(ModSource("modrinth", url), version, modloader, api)
  }

  /** The result after the given sources, taken in order: a failure is stored under the URL, a success appended. */
  function Aggregate(urls: seq<string>, outcome: string -> Option<string>): (r: UpdateResult)
    ensures r.skipped == []
  {
    if urls == [] then UpdateResult([], map[], [])
    else
      var prev := Aggregate(urls[..|urls| - 1], outcome);
      var url := urls[|urls| - 1];
      match outcome(url)
      case Some(e) => prev.(failed := prev.failed[url := e])
      case None => prev.(updated := prev.updated + [url])
  }

  /** The sources whose update succeeded, in order. */
  function Succeeded(urls: seq<string>, outcome: string -> Option<string>): seq<string> {
    if urls == [] then []
    else
      var last := if outcome(urls[|urls| - 1]).None? then [urls[|urls| - 1]] else [];
      Succeeded(urls[..|urls| - 1], outcome) + last
  }

  /**
   * Every source ends in exactly one place: under its URL in the failures
   * with its error, or in the updated list; the updated list is the
   * successful sources in order, and nothing is skipped.
   */
  lemma {:induction false} AggregateSorts(urls: seq<string>, outcome: string -> Option<string>)
    ensures var r := Aggregate(urls, outcome);
      r.updated == Succeeded(urls, outcome) &&
      (forall u :: u in r.failed <==> u in urls && outcome(u).Some?) &&
      (forall u :: u in r.failed ==> r.failed[u] == outcome(u).value)
  {
    if urls != [] {
      var init := urls[..|urls| - 1];
      AggregateSorts(init, outcome);
      assert forall u :: u in urls <==> u in init || u == urls[|urls| - 1] by {
        assert urls == init + [urls[|urls| - 1]];
      }
    }
  }

  /** A source never lands both in the failures and in the updated list. */
  lemma {:induction false} SucceededHaveNoError(urls: seq<string>, outcome: string -> Option<string>)
    ensures forall u :: u in Succeeded(urls, outcome) ==> u in urls && outcome(u).None?
  {
    if urls != [] {
      var init := urls[..|urls| - 1];
      SucceededHaveNoError(init, outcome);
      assert urls == init + [urls[|urls| - 1]];
    }
  }

  /** `UpdateAllMods`. A dry run reports a placeholder success and touches nothing; the error result is always nil. */
  method UpdateAllMods(dryRun: bool, modrinthSources: seq<string>, version: string, modloader: string, api: Api)
    returns (result: UpdateResult)
    ensures dryRun ==> result == UpdateResult(["example-mod (dry-run)"], map[], [])
    ensures !dryRun ==> result == Aggregate(modrinthSources, Outcomes(version, modloader, api))
  {
    if dryRun {
      return UpdateResult(["example-mod (dry-run)"], map[], []);
    }
    result := UpdateResult([], map[], []);
    var sources: seq<ModSource> := [];
    for i := 0 to |modrinthSources|
      invariant sources == seq(i, k requires 0 <= k < i => ModSource("modrinth", modrinthSources[k]))
    {
      sources := sources + [ModSource("modrinth", modrinthSources[i])];
    }
    if |sources| == 0 {
      return;
    }
    for i := 0 to |sources|
      invariant result == Aggregate(modrinthSources[..i], Outcomes(version, modloader, api))
    {
      var src := sources[i];
      assert modrinthSources[..i + 1][..i] == modrinthSources[..i];
      var err := UpdateSingleMod(src, version, modloader, api);
      match err {
        case Some(e) =>
          result := result.(failed := result.failed[src.url := e]);
        case None =>
          result := result.(updated := result.updated + [src.url]);
      }
    }
    assert modrinthSources[..|sources|] == modrinthSources;
  }

  // ------------------------------------------------------- installed mods

  /** `filepath.Ext`: from the last '.' of the final element, or empty. */
  function Ext(path: string): (r: string)
    ensures HasSuffix(path, r)
    ensures r != [] ==> r[0] == '.'
    ensures forall k :: 0 < k < |r| ==> r[k] != '.' && r[k] != '/'
  {
    ExtBefore(path, |path|)
  }

  function ExtBefore(path: string, i: nat): (r: string)
    requires i <= |path|
    requires forall k :: i <= k < |path| ==> path[k] != '.' && path[k] != '/'
    ensures HasSuffix(path, r)
    ensures r != [] ==> r[0] == '.'
    ensures forall k :: 0 < k < |r| ==> r[k] != '.' && r[k] != '/'
    decreases i
  {
    if i == 0 || path[i - 1] == '/' then []
    else if path[i - 1] == '.' then path[i - 1..]
    else ExtBefore(path, i - 1)
  }

  /** `filepath.Base`: trailing separators dropped, then the text after the last '/'. */
  function Base(path: string): (r: string)
    ensures '/' !in r || r == "/"
  {
    if path == [] then "."
    else
      var trimmed := TrimTrailingSlashes(path);
      if trimmed == [] then "/" else AfterLastSlash(trimmed, |trimmed|)
  }

  function TrimTrailingSlashes(path: string): (r: string)
    ensures |r| <= |path| && r == path[..|r|]
    ensures r != [] ==> r[|r| - 1] != '/'
  {
    if path != [] && path[|path| - 1] == '/' then TrimTrailingSlashes(path[..|path| - 1]) else path
  }

  function AfterLastSlash(path: string, i: nat): (r: string)
    requires i <= |path|
    requires forall k :: i <= k < |path| ==> path[k] != '/'
    ensures '/' !in r
    ensures HasSuffix(path, r)
    decreases i
  {
    if i == 0 then path
    else if path[i - 1] == '/' then path[i..]
    else AfterLastSlash(path, i - 1)
  }

  /** The name shown for an installed jar: its file name without the extension. */
  function ModName(filename: string): (name: string)
    ensures name + Ext(filename) == filename
  {
    filename[..|filename| - |Ext(filename)|]
  }

  /** A jar's name is its file name without ".jar". */
  lemma JarName(filename: string)
    requires HasSuffix(filename, ".jar")
    ensures Ext(filename) == ".jar"
    ensures ModName(filename) == filename[..|filename| - 4]
  {
    var n := |filename|;
    assert filename[n - 4..] == ".jar";
    assert filename[n - 1] == 'r' && filename[n - 2] == 'a' && filename[n - 3] == 'j' && filename[n - 4] == '.';
    assert ExtBefore(filename, n) == ExtBefore(filename, n - 1);
    assert ExtBefore(filename, n - 1) == ExtBefore(filename, n - 2);
    assert ExtBefore(filename, n - 2) == ExtBefore(filename, n - 3);
    assert ExtBefore(filename, n - 3) == filename[n - 4..];
  }

  /** What `os.Stat` reports for a listed file. */
  datatype FileStat = FileStat(size: int, modified: int)

  /** One entry of the listing. */
  datatype InstalledMod = InstalledMod(name: string, filename: string, size: int, modified: int)

  function Describe(file: string, st: FileStat): InstalledMod {
    var filename := Base(file);
    InstalledMod(ModName(filename), filename, st.size, st.modified)
  }

  /** The listing of the given files: those that can be stat-ed, in order, described. */
  function Installed(files: seq<string>, stat: string -> Option<FileStat>): seq<InstalledMod> {
    if files == [] then []
    else
      var file := files[|files| - 1];
      var last := if stat(file).Some? then [Describe(file, stat(file).value)] else [];
      Installed(files[..|files| - 1], stat) + last
  }

  /** Every listed mod comes from a listed file, and its name and extension make up its file name. */
  lemma {:induction false} InstalledShape(files: seq<string>, stat: string -> Option<FileStat>)
    ensures |Installed(files, stat)| <= |files|
    ensures forall m :: m in Installed(files, stat) ==>
      m.name + Ext(m.filename) == m.filename &&
      exists f :: f in files && stat(f).Some? && m == Describe(f, stat(f).value)
  {
    if files != [] {
      var init := files[..|files| - 1];
      InstalledShape(init, stat);
      assert files == init + [files[|files| - 1]];
    }
  }

  /**
   * `ListInstalledMods`: the jars the glob found, skipping those that cannot
   * be stat-ed; a failed glob is an error.
   */
  method ListInstalledMods(glob: Result<seq<string>, string>, stat: string -> Option<FileStat>)
    returns (r: Result<seq<InstalledMod>, string>)
    ensures glob.Err? ==> r == Err("failed to list mod files: " + glob.error)
    ensures glob.Ok? ==> r == Ok(Installed(glob.value, stat))
  {
    if glob.Err? {
      return Err("failed to list mod files: " + glob.error);
    }
    var files := glob.value;
    var mods: seq<InstalledMod> := [];
    for i := 0 to |files|
      invariant mods == Installed(files[..i], stat)
    {
      assert files[..i + 1][..i] == files[..i];
      var info := stat(files[i]);
      if info.None? {
        continue;
      }
      var filename := Base(files[i]);
      var name := ModName(filename);
      mods := mods + [InstalledMod(name, filename, info.value.size, info.value.modified)];
    }
    assert files[..|files|] == files;
    return Ok(mods);
  }

  // ---------------------------------------------------------------- health

  /** What the probe of the API root brought back. */
  datatype Probe = ProbeStatus(status: int) | ProbeFailed(err: string) | ProbeNotCreated(err: string)

  /**
   * `HealthCheck`: the mods directory (with the number of jars the glob
   * finds, 0 when it fails), the number of sources, and the API probe.
   */
  function ModHealth(modsDirIsDir: bool, jars: Option<nat>, sources: nat, probe: Probe): (r: seq<HealthCheck>)
    ensures |r| == 3 && r[0].name == "Mods directory" && r[1].name == "Mod sources" && r[2].name == "Modrinth API"
    ensures forall c :: c in r ==> c.status in {Passed, Broken, Warned}
    ensures r[0].status == Passed <==> modsDirIsDir
    ensures r[1].status == Passed <==> sources > 0
    ensures r[1].status == Warned <==> sources == 0
    ensures r[2].status == Passed <==> probe == ProbeStatus(200)
    ensures r[2].status == Warned <==> probe.ProbeStatus? && probe.status != 200
  {
    var dir := if modsDirIsDir then
        HealthCheck("Mods directory", Passed, "OK (" + IntToString(if jars.Some? then jars.value else 0) + " mods found)")
      else HealthCheck("Mods directory", Broken, "Directory not found or not accessible");
    var configured := if sources > 0 then HealthCheck("Mod sources", Passed, IntToString(sources) + " sources configured")
      else HealthCheck("Mod sources", Warned, "No mod sources configured");
    var api := match probe
      case ProbeStatus(200) => HealthCheck("Modrinth API", Passed, "API accessible")
      case ProbeStatus(status) => HealthCheck("Modrinth API", Warned, "API returned status " + IntToString(status))
      case ProbeFailed(e) => HealthCheck("Modrinth API", Broken, "Connection failed: " + e)
      case ProbeNotCreated(e) => HealthCheck("Modrinth API", Broken, "Request creation failed: " + e);
    [dir, configured, api]
  }
}
