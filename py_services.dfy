/**
 * The services module of the Python package (minecraft_mod_manager/services.py):
 * the exponential back-off helper, the classification of API replies, the
 * project ids taken from mod URLs, the batched look-up of every configured
 * mod on Modrinth and CurseForge, and the count-based backup retention.
 *
 * HTTP is a parameter: `respond(k)` is the reply the k-th attempt of one
 * request receives. The look-ups of one batch run concurrently in the code;
 * here they run one after another in source order.
 */
module PyServices {
  import opened Results
  import opened Text
  import opened FileSystem
  import Urls
  import Modrinth
  import Batching
  import Ordering
  import Retention
  import ModUpdates

  // ---------------------------------------------------------------- errors

  /**
   * The exceptions that reach the code's handlers, each with what its text
   * is built from: RateLimitError, NetworkError, ModUpdateError (three
   * kinds), an aiohttp client error, the MinecraftModManagerError of a retry
   * loop that never ran, a ValueError from a URL, an IndexError and a NameError.
   */
  datatype Failure =
    | RateLimited(endpoint: string)
    | ServerError(status: int, endpoint: string)
    | NotFound(endpoint: string)
    | BadStatus(status: int, endpoint: string)
    | Unparsable(reason: string)
    | ClientError(reason: string)
    | NoAttempts
    | InvalidUrl(message: string)
    | IndexOutOfRange
    | UndefinedName(name: string)

  /** `str(error)`. */
  function FailureText(f: Failure): string {
    match f
    case RateLimited(endpoint) => "API rate limit exceeded: " + endpoint
    case ServerError(status, endpoint) => "Server error " + IntToString(status) + ": " + endpoint
    case NotFound(endpoint) => "API resource not found: " + endpoint
    case BadStatus(status, endpoint) => "API request failed with status " + IntToString(status) + ": " + endpoint
    case Unparsable(reason) => "Failed to parse API response: " + reason
    case ClientError(reason) => reason
    case NoAttempts => "Retry operation failed without exception"
    case InvalidUrl(message) => message
    case IndexOutOfRange => "list index out of range"
    case UndefinedName(name) => "name '" + name + "' is not defined"
  }

  // ---------------------------------------------------- retry_with_backoff

  /** What one call of the operation did. */
  datatype Attempt<T> = Returned(value: T) | Threw(failure: Failure)

  /** A run of `retry_with_backoff`: its result, how many calls it made and the sleeps between them. */
  datatype RetryRun<T> = RetryRun(outcome: Result<T, Failure>, calls: nat, sleeps: seq<nat>)

  /**
   * `retry_with_backoff` from attempt `attempt` on: a failure `caught`
   * accepts is retried after `initialDelay * 2^attempt` seconds unless it
   * came from the last attempt; any other failure escapes at once. With no
   * attempt at all the helper raises its own error.
   */
  function RetryFrom<T>(op: nat -> Attempt<T>, attempt: nat, maxAttempts: int, initialDelay: nat, caught: Failure -> bool): RetryRun<T>
    decreases maxAttempts - attempt
  {
    if attempt >= maxAttempts then RetryRun(Err(NoAttempts), 0, [])
    else
      match op(attempt)
      case Returned(v) => RetryRun(Ok(v), 1, [])
      case Threw(f) =>
        if !caught(f) || attempt == maxAttempts - 1 then RetryRun(Err(f), 1, [])
        else
          var rest := RetryFrom(op, attempt + 1, maxAttempts, initialDelay, caught);
          RetryRun(rest.outcome, rest.calls + 1, [initialDelay * Pow2(attempt)] + rest.sleeps)
  }

  /** The result a call hands on when it is the last one. */
  function Final<T>(a: Attempt<T>): Result<T, Failure> {
    match a
    case Returned(v) => Ok(v)
    case Threw(f) => Err(f)
  }

  /** The call failed in a way the loop retries. */
  predicate Retriable<T>(a: Attempt<T>, caught: Failure -> bool) {
    a.Threw? && caught(a.failure)
  }

  /**
   * `retry_with_backoff`: the `for attempt in range(max_attempts)` loop with
   * its `last_error`, run against the operation's calls in order.
   */
  method RetryWithBackoff<T>(op: nat -> Attempt<T>, maxAttempts: int, initialDelay: nat, caught: Failure -> bool)
    returns (outcome: Result<T, Failure>, calls: nat, sleeps: seq<nat>)
    ensures RetryRun(outcome, calls, sleeps) == RetryFrom(op, 0, maxAttempts, initialDelay, caught)
  {
    ghost var whole := RetryFrom(op, 0, maxAttempts, initialDelay, caught);
    var lastError: Option<Failure> := None;
    calls, sleeps := 0, [];
    var attempt: nat := 0;
    while attempt < maxAttempts
      invariant calls == attempt
      invariant attempt == 0 || attempt < maxAttempts
      invariant attempt == 0 ==> lastError.None?
      invariant var rest := RetryFrom(op, attempt, maxAttempts, initialDelay, caught);
        whole == RetryRun(rest.outcome, calls + rest.calls, sleeps + rest.sleeps)
      decreases maxAttempts - attempt
    {
      var a := op(attempt);
      calls := calls + 1;
      if a.Returned? {
        assert sleeps + [] == sleeps;
        return Ok(a.value), calls, sleeps;
      }
      if !caught(a.failure) {
        assert sleeps + [] == sleeps;
        return Err(a.failure), calls, sleeps;
      }
      lastError := Some(a.failure);
      if attempt == maxAttempts - 1 {
        assert sleeps + [] == sleeps;
        break;
      }
      ghost var rest := RetryFrom(op, attempt + 1, maxAttempts, initialDelay, caught);
      assert sleeps + ([initialDelay * Pow2(attempt)] + rest.sleeps) == sleeps + [initialDelay * Pow2(attempt)] + rest.sleeps;
      sleeps := sleeps + [initialDelay * Pow2(attempt)];
      attempt := attempt + 1;
    }
    if lastError.Some? {
      return Err(lastError.value), calls, sleeps;
    }
    assert sleeps + [] == sleeps;
    return Err(NoAttempts), calls, sleeps;
  }

  /**
   * What a run does once at least one attempt is left: between one call and
   * the attempts left; every call but the last failed in a retried way and
   * was followed by `initialDelay * 2^k` seconds of sleep; the run ends
   * before the attempts are used up only on a call that is not retried; the
   * result is the last call's.
   */
  lemma {:induction false} RetryShape<T>(op: nat -> Attempt<T>, attempt: nat, maxAttempts: int, initialDelay: nat, caught: Failure -> bool)
    requires attempt < maxAttempts
    ensures var r := RetryFrom(op, attempt, maxAttempts, initialDelay, caught);
      1 <= r.calls <= maxAttempts - attempt &&
      |r.sleeps| == r.calls - 1 &&
      (forall k :: 0 <= k < |r.sleeps| ==> r.sleeps[k] == initialDelay * Pow2(attempt + k)) &&
      (forall k :: attempt <= k < attempt + r.calls - 1 ==> Retriable(op(k), caught)) &&
      (attempt + r.calls < maxAttempts ==> !Retriable(op(attempt + r.calls - 1), caught)) &&
      r.outcome == Final(op(attempt + r.calls - 1))
    decreases maxAttempts - attempt
  {
    var r := RetryFrom(op, attempt, maxAttempts, initialDelay, caught);
    var a := op(attempt);
    if a.Threw? && caught(a.failure) && attempt < maxAttempts - 1 {
      var rest := RetryFrom(op, attempt + 1, maxAttempts, initialDelay, caught);
      RetryShape(op, attempt + 1, maxAttempts, initialDelay, caught);
      assert r.sleeps == [initialDelay * Pow2(attempt)] + rest.sleeps;
      forall k | 0 <= k < |r.sleeps| ensures r.sleeps[k] == initialDelay * Pow2(attempt + k) {
        if k > 0 {
          assert r.sleeps[k] == rest.sleeps[k - 1];
        }
      }
    }
  }

  /** When every call fails in a retried way, all the attempts are made and the last failure is raised. */
  lemma AllAttemptsFail<T>(op: nat -> Attempt<T>, maxAttempts: int, initialDelay: nat, caught: Failure -> bool)
    requires maxAttempts >= 1
    requires forall k :: 0 <= k < maxAttempts ==> Retriable(op(k), caught)
    ensures var r := RetryFrom(op, 0, maxAttempts, initialDelay, caught);
      r.calls == maxAttempts && r.outcome == Final(op(maxAttempts - 1)) && |r.sleeps| == maxAttempts - 1
  {
    RetryShape(op, 0, maxAttempts, initialDelay, caught);
  }

  /** A failure the loop does not catch escapes from the first call, with no sleep. */
  lemma UncaughtEscapesAtOnce<T>(op: nat -> Attempt<T>, maxAttempts: int, initialDelay: nat, caught: Failure -> bool)
    requires maxAttempts >= 1 && op(0).Threw? && !caught(op(0).failure)
    ensures RetryFrom(op, 0, maxAttempts, initialDelay, caught) == RetryRun(Err(op(0).failure), 1, [])
  {
  }

  // --------------------------------------------------- execute_api_request

  /** What one GET received: a status with the decoded JSON (or the decoding error), or an aiohttp error. */
  datatype HttpReply<B> = HttpReply(status: int, json: Result<B, string>) | ConnectionFailed(reason: string)

  /** The `exception_types` of `execute_api_request`: RateLimitError and NetworkError. */
  predicate Retried(f: Failure) {
    f.RateLimited? || f.ServerError?
  }

  /** `_execute_single_request` once the reply is in: the status checks in the code's order, then the body. */
  function Classify<B>(endpoint: string, reply: HttpReply<B>): (a: Attempt<B>)
    ensures a.Returned? <==> reply.HttpReply? && reply.status == 200 && reply.json.Ok?
    ensures a.Returned? ==> a.value == reply.json.value
    ensures a.Threw? && Retried(a.failure) <==> reply.HttpReply? && (reply.status == 429 || reply.status >= 500)
    ensures reply.HttpReply? && reply.status == 404 ==> a == Threw(NotFound(endpoint))
    ensures reply.ConnectionFailed? ==> a == Threw(ClientError(reply.reason))
  {
    match reply
    case ConnectionFailed(reason) => Threw(ClientError(reason))
    case HttpReply(status, json) =>
      if status == 429 then Threw(RateLimited(endpoint))
      else if status == 404 then Threw(NotFound(endpoint))
      else if status >= 500 then Threw(ServerError(status, endpoint))
      else if status != 200 then Threw(BadStatus(status, endpoint))
      else match json
        case Err(reason) => Threw(Unparsable(reason))
        case Ok(body) => Returned(body)
  }

  /** The `mods` settings a request uses: `max_retries` attempts, `base_delay` seconds to start. */
  datatype Settings = Settings(maxRetries: int, baseDelay: nat)

  /** The pause at the start of every attempt. */
  const RequestPause: nat := 1

  /**
   * `execute_api_request`: the single request, retried on a rate limit or a
   * server error only. Each of the run's calls starts with RequestPause.
   */
  function ExecuteApiRequest<B>(endpoint: string, respond: nat -> HttpReply<B>, s: Settings): RetryRun<B> {
    RetryFrom((k: nat) => Classify(endpoint, respond(k)), 0, s.maxRetries, s.baseDelay, Retried)
  }

  /**
   * Only replies with status 429 or at least 500 are followed by another
   * request, and what the request gives is the classification of the last reply.
   */
  lemma RetriesOnlyTransient<B>(endpoint: string, respond: nat -> HttpReply<B>, s: Settings)
    requires s.maxRetries >= 1
    ensures var r := ExecuteApiRequest(endpoint, respond, s);
      1 <= r.calls <= s.maxRetries &&
      (forall k :: 0 <= k < r.calls - 1 ==> respond(k).HttpReply? && (respond(k).status == 429 || respond(k).status >= 500)) &&
      r.outcome == Final(Classify(endpoint, respond(r.calls - 1)))
  {
    var op := (k: nat) => Classify(endpoint, respond(k));
    RetryShape(op, 0, s.maxRetries, s.baseDelay, Retried);
    var r := ExecuteApiRequest(endpoint, respond, s);
    forall k | 0 <= k < r.calls - 1 ensures respond(k).HttpReply? && (respond(k).status == 429 || respond(k).status >= 500) {
      assert Retriable(op(k), Retried);
    }
  }

  /** A 404, a bad body, an unexpected status or a connection error ends the request after one call. */
  lemma PermanentFailsAtOnce<B>(endpoint: string, respond: nat -> HttpReply<B>, s: Settings)
    requires s.maxRetries >= 1
    requires respond(0).ConnectionFailed? || (respond(0).status != 429 && respond(0).status < 500)
    ensures var r := ExecuteApiRequest(endpoint, respond, s);
      r.calls == 1 && r.sleeps == [] && r.outcome == Final(Classify(endpoint, respond(0)))
  {
  }

  // -------------------------------------------------- _collect_mod_sources

  datatype ModSource = ModSource(kind: string, url: string)

  /** `_collect_mod_sources`: every Modrinth URL, then every CurseForge URL, each tagged with its platform. */
  method CollectModSources(modrinth: seq<string>, curseforge: seq<string>) returns (sources: seq<ModSource>)
    ensures |sources| == |modrinth| + |curseforge|
    ensures forall i :: 0 <= i < |modrinth| ==> sources[i] == ModSource("modrinth", modrinth[i])
    ensures forall i :: 0 <= i < |curseforge| ==> sources[|modrinth| + i] == ModSource("curseforge", curseforge[i])
    ensures sources == Tagged("modrinth", modrinth) + Tagged("curseforge", curseforge)
  {
    sources := [];
    for i := 0 to |modrinth|
      invariant |sources| == i
      invariant forall j :: 0 <= j < i ==> sources[j] == ModSource("modrinth", modrinth[j])
    {
      sources := sources + [ModSource("modrinth", modrinth[i])];
    }
    for i := 0 to |curseforge|
      invariant |sources| == |modrinth| + i
      invariant forall j :: 0 <= j < |modrinth| ==> sources[j] == ModSource("modrinth", modrinth[j])
      invariant forall j :: 0 <= j < i ==> sources[|modrinth| + j] == ModSource("curseforge", curseforge[j])
    {
      sources := sources + [ModSource("curseforge", curseforge[i])];
    }
  }

  // ---------------------------------------------------- _parse_project_id

  /** The path marker whose next segment is the project id, by platform. */
  function IdMarker(kind: string): Option<string> {
    if kind == "modrinth" then Some("/mod/")
    else if kind == "curseforge" then Some("/mc-mods/")
    else None
  }

  /**
   * `_parse_project_id`: the segment after the first `/mod/` (Modrinth) or
   * `/mc-mods/` (CurseForge) of the URL's path; a URL `urlparse` rejects, a
   * URL without the segment, or a platform other than these two, is a
   * ValueError.
   */
  function ParseProjectId(source: ModSource): (r: Result<string, Failure>)
    ensures Urls.PyUrlPath(source.url).Err? ==> r == Err(InvalidUrl(Urls.InvalidIPv6))
    ensures r.Ok? <==>
      Urls.PyUrlPath(source.url).Ok? && IdMarker(source.kind).Some? &&
      Urls.SearchGroup(Urls.PyUrlPath(source.url).value, IdMarker(source.kind).value).Some?
    ensures r.Ok? ==> r.value == Urls.SearchGroup(Urls.PyUrlPath(source.url).value, IdMarker(source.kind).value).value
    ensures r.Ok? ==> |r.value| > 0 && '/' !in r.value
    ensures r.Err? ==> r.error.InvalidUrl?
  {
    match Urls.PyUrlPath(source.url)
    case Err(e) => Err(InvalidUrl(e))
    case Ok(path) =>
      if source.kind == "modrinth" then
        match Urls.SearchGroup(path, "/mod/")
        case None => Err(InvalidUrl("Invalid Modrinth URL format: " + source.url))
        case Some(id) => Ok(id)
      else if source.kind == "curseforge" then
        match Urls.SearchGroup(path, "/mc-mods/")
        case None => Err(InvalidUrl("Invalid CurseForge URL format: " + source.url))
        case Some(id) => Ok(id)
      else Err(InvalidUrl("Unsupported mod source type: " + source.kind))
  }

  /** A Modrinth page URL `scheme://host/mod/<id>` yields its id. */
  lemma ModrinthPageId(scheme: string, host: string, id: string)
    requires |scheme| > 0 && forall k :: 0 <= k < |scheme| ==> Urls.IsAsciiLetter(scheme[k])
    requires forall k :: 0 <= k < |host| ==> host[k] !in {'/', '?', '#', '[', ']', '\t', '\r', '\n'}
    requires |id| > 0 && forall k :: 0 <= k < |id| ==> id[k] !in {'/', '?', '#', ';', '\t', '\r', '\n'}
    ensures ParseProjectId(ModSource("modrinth", scheme + "://" + host + ("/mod/" + id))) == Ok(id)
  {
    assert [] + "/mod/" + id == "/mod/" + id;
    PageId("modrinth", "/mod/", [], scheme, host, id);
  }

  /** A CurseForge page URL `scheme://host/minecraft/mc-mods/<slug>` yields its slug. */
  lemma CurseforgePageId(scheme: string, host: string, slug: string)
    requires |scheme| > 0 && forall k :: 0 <= k < |scheme| ==> Urls.IsAsciiLetter(scheme[k])
    requires forall k :: 0 <= k < |host| ==> host[k] !in {'/', '?', '#', '[', ']', '\t', '\r', '\n'}
    requires |slug| > 0 && forall k :: 0 <= k < |slug| ==> slug[k] !in {'/', '?', '#', ';', '\t', '\r', '\n'}
    ensures ParseProjectId(ModSource("curseforge", scheme + "://" + host + ("/minecraft" + "/mc-mods/" + slug))) == Ok(slug)
  {
    GamePrefixHasNoMatch(slug);
    PageId("curseforge", "/mc-mods/", "/minecraft", scheme, host, slug);
  }

  /**
   * A URL whose path is `lead`, the platform's marker and the id, with no
   * earlier match inside `lead`, yields the id.
   */
  lemma PageId(kind: string, marker: string, lead: string, scheme: string, host: string, id: string)
    requires IdMarker(kind) == Some(marker)
    requires |scheme| > 0 && forall k :: 0 <= k < |scheme| ==> Urls.IsAsciiLetter(scheme[k])
    requires forall k :: 0 <= k < |host| ==> host[k] !in {'/', '?', '#', '[', ']', '\t', '\r', '\n'}
    requires |id| > 0 && forall k :: 0 <= k < |id| ==> id[k] !in {'/', '?', '#', ';', '\t', '\r', '\n'}
    requires forall k :: 0 <= k < |lead + marker| ==> (lead + marker)[k] !in {'?', '#', ';', '\t', '\r', '\n'}
    requires |lead + marker| > 0 && (lead + marker)[0] == '/'
    requires forall q :: 0 <= q < |lead| ==> !Urls.GroupAt(lead + marker + id, marker, q)
    ensures ParseProjectId(ModSource(kind, scheme + "://" + host + (lead + marker + id))) == Ok(id)
  {
    var path := lead + marker + id;
    PathWithoutSpecials(lead + marker, id);
    assert forall c :: c in host + path ==> c !in Urls.UnsafeUrlChars by {
      forall c | c in host + path ensures c !in Urls.UnsafeUrlChars {
        var k :| 0 <= k < |host + path| && (host + path)[k] == c;
        if k < |host| { assert c == host[k]; } else { assert c == path[k - |host|]; }
      }
    }
    assert '[' !in host && ']' !in host by {
      forall k | 0 <= k < |host| ensures host[k] != '[' && host[k] != ']' { }
    }
    Urls.PyWebUrlPath(scheme, host, path);
    assert |marker| > 0;
    Urls.SearchGroupFinds(lead, marker, id, []);
    assert path + [] == path;
  }

  /** A fixed path prefix followed by an id without '?', '#' or ';' has none of them. */
  lemma PathWithoutSpecials(prefix: string, id: string)
    requires forall k :: 0 <= k < |prefix| ==> prefix[k] !in {'?', '#', ';', '\t', '\r', '\n'}
    requires |prefix| > 0 && prefix[0] == '/'
    requires forall k :: 0 <= k < |id| ==> id[k] !in {'/', '?', '#', ';', '\t', '\r', '\n'}
    ensures var p := prefix + id; |p| > 0 && p[0] == '/' && forall k :: 0 <= k < |p| ==> p[k] !in {'?', '#', ';', '\t', '\r', '\n'}
  {
    var p := prefix + id;
    forall k | 0 <= k < |p| ensures p[k] !in {'?', '#', ';', '\t', '\r', '\n'} {
      if k >= |prefix| {
        assert p[k] == id[k - |prefix|];
      } else {
        assert p[k] == prefix[k];
      }
    }
  }

  /** `/mc-mods/` does not start inside "/minecraft". */
  lemma GamePrefixHasNoMatch(slug: string)
    ensures forall q :: 0 <= q < 10 ==> !Urls.GroupAt("/minecraft" + "/mc-mods/" + slug, "/mc-mods/", q)
  {
    var s := "/minecraft" + "/mc-mods/" + slug;
    assert s[..10] == "/minecraft";
    forall q | 0 <= q < 10 ensures !OccursAt(s, "/mc-mods/", q) {
      if q == 0 {
        assert s[2] == 'i';
        assert s[q..q + 9][2] != "/mc-mods/"[2];
      } else {
        assert s[q] == "/minecraft"[q] != '/';
        assert s[q..q + 9][0] != "/mc-mods/"[0];
      }
    }
  }

  // ------------------------------------------------------- the two APIs

  const ModrinthApi: string := "https://api.modrinth.com/v2"
  const CurseforgeApi: string := "https://api.curseforge.com/v1"

  /** MINECRAFT_GAME_ID (432), as it appears in the search URL. */
  const MinecraftGameId: string := "432"

  /** The `minecraft` settings: the game version and the mod loader. */
  datatype Minecraft = Minecraft(version: string, modloader: string)

  /** One element of the `data` list of a CurseForge search. */
  datatype CfProject = CfProject(id: int, name: string)

  /** One element of a file's `sortableGameVersions`: its `gameVersionTypeId` and its `id`. */
  datatype LoaderTag = LoaderTag(typeId: int, id: string)

  /**
   * One element of the `data` list of a CurseForge files reply, with the
   * `versionString` of each of its `gameVersions`.
   */
  datatype CfFile = CfFile(
    id: int,
    displayName: string,
    fileName: string,
    downloadUrl: string,
    fileDate: int,
    gameVersions: seq<string>,
    sortable: seq<LoaderTag>)

  /**
   * The replies of the remote services: `project(endpoint, k)` is the reply
   * to the k-th attempt of a GET of `endpoint`, its JSON already decoded
   * into the shape the code reads. An absent or empty `data` list is [].
   */
  datatype Api = Api(
    project: (string, nat) -> HttpReply<Modrinth.Project>,
    versions: (string, nat) -> HttpReply<seq<Modrinth.Release>>,
    search: (string, nat) -> HttpReply<seq<CfProject>>,
    files: (string, nat) -> HttpReply<seq<CfFile>>)

  /** What a look-up works with: the replies, the retry settings and the game settings. */
  datatype Env = Env(api: Api, settings: Settings, minecraft: Minecraft)

  /** The body `execute_api_request(endpoint)` returns, or what it raises. */
  function Get<B>(endpoint: string, replies: (string, nat) -> HttpReply<B>, s: Settings): Result<B, Failure> {
    ExecuteApiRequest(endpoint, (k: nat) => replies(endpoint, k), s).outcome
  }

  function ProjectEndpoint(id: string): string {
    ModrinthApi + "/project/" + id
  }

  function VersionsEndpoint(id: string, mc: Minecraft): string {
    ProjectEndpoint(id) + "/version" + "?game_versions=[\"" + mc.version + "\"]&loaders=[\"" + mc.modloader + "\"]"
  }

  function SearchEndpoint(slug: string): string {
    CurseforgeApi + "/mods/search?gameId=" + MinecraftGameId + "&slug=" + slug
  }

  function FilesEndpoint(projectId: int): string {
    CurseforgeApi + "/mods/" + IntToString(projectId) + "/files"
  }

  /**
   * What one look-up adds: at most one `version_info` entry (key and
   * record), the lines it appends to `processing_failures`, and the
   * exception it lets out, if any.
   */
  datatype Contribution = Contribution(entry: Option<(string, Modrinth.ModInfo)>, failures: seq<string>, raised: Option<Failure>)

  /** The look-up ends in exactly one way: an entry, one failure line, or an exception. */
  predicate OneOutcome(c: Contribution) {
    (c.entry.Some? && c.failures == [] && c.raised.None?) ||
    (c.entry.None? && |c.failures| == 1 && c.raised.None?) ||
    (c.entry.None? && c.failures == [] && c.raised.Some?)
  }

  // --------------------------------------------- _fetch_modrinth_mod_info

  function NoCompatible(name: string): string {
    name + " (no compatible version)"
  }

  /** `project_metadata.get('title', project_id)`. */
  function TitleOr(p: Modrinth.Project, id: string): string {
    match p.title
    case Some(t) => t
    case None => id
  }

  /**
   * `_fetch_modrinth_mod_info`: the project, then its versions for the
   * configured game version and loader; the first version listed is
   * recorded under the project id. A request error escapes, and so does the
   * IndexError of a version without files.
   */
  function FetchModrinth(id: string, env: Env): (c: Contribution)
    ensures OneOutcome(c)
    ensures c.entry.Some? ==> c.entry.value.0 == id
  {
    match Get(ProjectEndpoint(id), env.api.project, env.settings)
    case Err(f) => Contribution(None, [], Some(f))
    case Ok(project) =>
      var name := TitleOr(project, id);
      match Get(VersionsEndpoint(id, env.minecraft), env.api.versions, env.settings)
      case Err(f) => Contribution(None, [], Some(f))
      case Ok(versions) =>
        if versions == [] then Contribution(None, [NoCompatible(name)], None)
        else if versions[0].files == [] then Contribution(None, [], Some(IndexOutOfRange))
        else Contribution(Some((id, Modrinth.Describe(versions[0], name))), [], None)
  }

  /** With both requests answered, the first version listed is the one recorded, under the project's title. */
  lemma ModrinthTakesFirst(id: string, env: Env, project: Modrinth.Project, versions: seq<Modrinth.Release>)
    requires Get(ProjectEndpoint(id), env.api.project, env.settings) == Ok(project)
    requires Get(VersionsEndpoint(id, env.minecraft), env.api.versions, env.settings) == Ok(versions)
    ensures versions == [] ==> FetchModrinth(id, env) == Contribution(None, [NoCompatible(TitleOr(project, id))], None)
    ensures versions != [] && versions[0].files != [] ==>
      var c := FetchModrinth(id, env);
      c.entry == Some((id, Modrinth.Describe(versions[0], TitleOr(project, id)))) &&
      c.entry.value.1.versionId == versions[0].id && c.entry.value.1.downloadUrl == versions[0].files[0].url
  {
  }

  // ------------------------------------------- _fetch_curseforge_mod_info

  /** The `gameVersionTypeId` of mod loaders. */
  const LoaderTypeId: int := 68

  /** A type-68 entry whose id, lowered, contains the lowered loader name. */
  predicate NamesLoader(tag: LoaderTag, modloader: string) {
    tag.typeId == LoaderTypeId && Contains(Lower(tag.id), Lower(modloader))
  }

  /** The file lists the game version and a mod loader entry naming the configured loader. */
  predicate CfCompatible(f: CfFile, mc: Minecraft) {
    mc.version in f.gameVersions && exists i :: 0 <= i < |f.sortable| && NamesLoader(f.sortable[i], mc.modloader)
  }

  /** The compatible files, in the order the reply lists them. */
  function CompatibleFiles(files: seq<CfFile>, mc: Minecraft): (r: seq<CfFile>)
    ensures |r| <= |files|
    ensures forall f :: f in r <==> f in files && CfCompatible(f, mc)
  {
    if files == [] then []
    else
      assert forall f :: f in files <==> f == files[0] || f in files[1..];
      (if CfCompatible(files[0], mc) then [files[0]] else []) + CompatibleFiles(files[1..], mc)
  }

  /** The filtering loop of `_fetch_curseforge_mod_info`. */
  method FilterCompatible(files: seq<CfFile>, mc: Minecraft) returns (compatible: seq<CfFile>)
    ensures compatible == CompatibleFiles(files, mc)
  {
    compatible := [];
    for i := 0 to |files|
      invariant compatible + CompatibleFiles(files[i..], mc) == CompatibleFiles(files, mc)
    {
      CompatibleStep(files, i, mc);
      ghost var before := compatible;
      if CfCompatible(files[i], mc) {
        compatible := compatible + [files[i]];
      }
      assert compatible == before + Kept(files[i], mc);
      Assoc(before, Kept(files[i], mc), CompatibleFiles(files[i + 1..], mc));
    }
    assert files[|files|..] == [];
  }

  /** A file as the filter passes it on: itself when compatible, nothing otherwise. */
  function Kept(f: CfFile, mc: Minecraft): seq<CfFile> {
    if CfCompatible(f, mc) then [f] else []
  }

  /** One step of the filter, from position `i` on. */
  lemma CompatibleStep(files: seq<CfFile>, i: nat, mc: Minecraft)
    requires i < |files|
    ensures CompatibleFiles(files[i..], mc) == Kept(files[i], mc) + CompatibleFiles(files[i + 1..], mc)
  {
    assert files[i..][1..] == files[i + 1..];
  }

  lemma Assoc<T>(a: seq<T>, b: seq<T>, c: seq<T>)
    ensures a + (b + c) == a + b + c
  {
  }

  /** The index of the first file among `files[..n]` with the latest date. */
  function NewestIn(files: seq<CfFile>, n: nat): (b: nat)
    requires 0 < n <= |files|
    ensures b < n
    ensures forall j :: 0 <= j < n ==> files[j].fileDate <= files[b].fileDate
    ensures forall j :: 0 <= j < b ==> files[j].fileDate < files[b].fileDate
  {
    if n == 1 then 0
    else
      var b := NewestIn(files, n - 1);
      if files[n - 1].fileDate > files[b].fileDate then n - 1 else b
  }

  /**
   * `sorted(files, key=fileDate, reverse=True)[0]`: the sort is stable, so
   * this is the first file, in list order, with the latest date.
   */
  function Newest(files: seq<CfFile>): (r: CfFile)
    requires files != []
    ensures forall i :: 0 <= i < |files| ==> files[i].fileDate <= r.fileDate
    ensures exists i :: 0 <= i < |files| && files[i] == r && forall j :: 0 <= j < i ==> files[j].fileDate < r.fileDate
  {
    var b := NewestIn(files, |files|);
    assert files[b] == files[b];
    files[b]
  }

  /** The record stored for a CurseForge file. */
  function CfInfo(f: CfFile, projectName: string): Modrinth.ModInfo {
    Modrinth.ModInfo(IntToString(f.id), f.displayName, f.downloadUrl, f.fileName, projectName)
  }

  /** How the CurseForge look-up ends, before the last branch's logging. */
  datatype CfOutcome =
    | CfRaised(failure: Failure)
    | CfMissing(line: string)
    | CfNoneCompatible(projectName: string)
    | CfChosen(file: CfFile, projectName: string)

  /**
   * `_fetch_curseforge_mod_info` up to its last branch: search the slug,
   * take the first project found, list its files, keep the compatible ones
   * and pick the newest.
   */
  function CurseforgeOutcome(slug: string, env: Env): (o: CfOutcome)
    ensures o.CfChosen? ==> CfCompatible(o.file, env.minecraft)
  {
    match Get(SearchEndpoint(slug), env.api.search, env.settings)
    case Err(f) => CfRaised(f)
    case Ok(projects) =>
      if projects == [] then CfMissing(slug + " (not found on CurseForge)")
      else
        var project := projects[0];
        match Get(FilesEndpoint(project.id), env.api.files, env.settings)
        case Err(f) => CfRaised(f)
        case Ok(files) =>
          if files == [] then CfMissing(project.name + " (no files available)")
          else
            var compatible := CompatibleFiles(files, env.minecraft);
            if compatible == [] then CfNoneCompatible(project.name)
            else CfChosen(Newest(compatible), project.name)
  }

  /**
   * `_fetch_curseforge_mod_info` as written: after appending "(no compatible
   * version)" its logging line names `mod_source`, which is not defined in
   * that method, so a NameError follows the failure line.
   */
  function FetchCurseforgeAsWritten(slug: string, env: Env): (c: Contribution)
    ensures c.entry.Some? ==> c.entry.value.0 == slug
  {
    match CurseforgeOutcome(slug, env)
    case CfRaised(f) => Contribution(None, [], Some(f))
    case CfMissing(line) => Contribution(None, [line], None)
    case CfNoneCompatible(name) => Contribution(None, [NoCompatible(name)], Some(UndefinedName("mod_source")))
    case CfChosen(file, name) => Contribution(Some((slug, CfInfo(file, name))), [], None)
  }

  /** `_fetch_curseforge_mod_info` with its last branch only recording the failure. */
  function FetchCurseforge(slug: string, env: Env): (c: Contribution)
    ensures OneOutcome(c)
    ensures c.entry.Some? ==> c.entry.value.0 == slug
  {
    match CurseforgeOutcome(slug, env)
    case CfRaised(f) => Contribution(None, [], Some(f))
    case CfMissing(line) => Contribution(None, [line], None)
    case CfNoneCompatible(name) => Contribution(None, [NoCompatible(name)], None)
    case CfChosen(file, name) => Contribution(Some((slug, CfInfo(file, name))), [], None)
  }

  /**
   * With the project found and its files listed, the file recorded is a
   * compatible one with the latest date, the first such in the list; with
   * none compatible, no entry is recorded.
   */
  lemma CurseforgeTakesNewest(slug: string, env: Env, projects: seq<CfProject>, files: seq<CfFile>)
    requires Get(SearchEndpoint(slug), env.api.search, env.settings) == Ok(projects) && projects != []
    requires Get(FilesEndpoint(projects[0].id), env.api.files, env.settings) == Ok(files) && files != []
    ensures var c := FetchCurseforge(slug, env);
      (c.entry.Some? <==> exists i :: 0 <= i < |files| && CfCompatible(files[i], env.minecraft)) &&
      (c.entry.Some? ==>
        exists i :: 0 <= i < |files| && c.entry.value.1 == CfInfo(files[i], projects[0].name) && LatestCompatible(files, i, env.minecraft))
  {
    CurseforgeListed(slug, env, projects, files);
    NewestCompatible(files, env.minecraft);
  }

  /** The outcome once the project is found and its files are listed. */
  lemma CurseforgeListed(slug: string, env: Env, projects: seq<CfProject>, files: seq<CfFile>)
    requires Get(SearchEndpoint(slug), env.api.search, env.settings) == Ok(projects) && projects != []
    requires Get(FilesEndpoint(projects[0].id), env.api.files, env.settings) == Ok(files) && files != []
    ensures var compatible := CompatibleFiles(files, env.minecraft);
      CurseforgeOutcome(slug, env) ==
        if compatible == [] then CfNoneCompatible(projects[0].name) else CfChosen(Newest(compatible), projects[0].name)
  {
  }

  /** `files[i]` is compatible and no compatible file is dated later. */
  predicate LatestCompatible(files: seq<CfFile>, i: int, mc: Minecraft)
    requires 0 <= i < |files|
  {
    CfCompatible(files[i], mc) &&
    forall j :: 0 <= j < |files| && CfCompatible(files[j], mc) ==> files[j].fileDate <= files[i].fileDate
  }

  /** The newest compatible file is the latest-dated of the compatible files. */
  lemma NewestCompatible(files: seq<CfFile>, mc: Minecraft)
    ensures var compatible := CompatibleFiles(files, mc);
      (compatible != [] <==> exists i :: 0 <= i < |files| && CfCompatible(files[i], mc)) &&
      (compatible != [] ==> exists i :: 0 <= i < |files| && files[i] == Newest(compatible) && LatestCompatible(files, i, mc))
  {
    var compatible := CompatibleFiles(files, mc);
    if exists i :: 0 <= i < |files| && CfCompatible(files[i], mc) {
      var i :| 0 <= i < |files| && CfCompatible(files[i], mc);
      assert files[i] in compatible;
    }
    if compatible != [] {
      var best := Newest(compatible);
      assert best in compatible;
      var i :| 0 <= i < |files| && files[i] == best;
      forall j | 0 <= j < |files| && CfCompatible(files[j], mc) ensures files[j].fileDate <= best.fileDate {
        assert files[j] in compatible;
      }
      assert LatestCompatible(files, i, mc);
    }
  }

  // ------------------------------------------- _retrieve_mod_info_safely

  /** The line recorded for a look-up that raised: the URL's last segment and the error's text. */
  function FailureLine(source: ModSource, f: Failure): string {
    ModUpdates.LastSegment(source.url) + " (" + FailureText(f) + ")"
  }

  /** The `except Exception` of `_retrieve_mod_info_safely`: an escaped error becomes one more line. */
  function Caught(source: ModSource, c: Contribution): (d: Contribution)
    ensures d.raised.None? && d.entry == c.entry
  {
    match c.raised
    case None => c
    case Some(f) => Contribution(c.entry, c.failures + [FailureLine(source, f)], None)
  }

  /** The branch for a platform other than the two; a parsed id never reaches it. */
  function UnsupportedLine(id: string, kind: string): string {
    id + " (unsupported platform: " + kind + ")"
  }

  /**
   * `_retrieve_mod_info_safely`: parse the project id, run the platform's
   * look-up, and turn any error into a failure line naming the URL's last
   * segment. Every source ends with an entry under its parsed id or with
   * exactly one failure line, and nothing escapes.
   */
  function RetrieveModInfoSafely(source: ModSource, env: Env): (c: Contribution)
    ensures c.raised.None?
    ensures |c.failures| + (if c.entry.Some? then 1 else 0) == 1
    ensures c.entry.Some? ==> ParseProjectId(source).Ok? && c.entry.value.0 == ParseProjectId(source).value
  {
    match ParseProjectId(source)
    case Err(f) =>
      var c := Contribution(None, [], Some(f));
      CaughtOne(source, c);
      Caught(source, c)
    case Ok(id) =>
      if source.kind == "modrinth" then
        var c := FetchModrinth(id, env);
        CaughtOne(source, c);
        Caught(source, c)
      else if source.kind == "curseforge" then
        var c := FetchCurseforge(id, env);
        CaughtOne(source, c);
        Caught(source, c)
      else Contribution(None, [UnsupportedLine(id, source.kind)], None)
  }

  /** A look-up that ends in one way still does once its error is caught. */
  lemma CaughtOne(source: ModSource, c: Contribution)
    requires OneOutcome(c)
    ensures var d := Caught(source, c);
      d.raised.None? && d.entry == c.entry && |d.failures| + (if d.entry.Some? then 1 else 0) == 1
  {
  }

  /** `_retrieve_mod_info_safely` around the CurseForge look-up as written. */
  function RetrieveModInfoSafelyAsWritten(source: ModSource, env: Env): (c: Contribution)
    ensures c.raised.None?
    ensures c.entry.Some? ==> ParseProjectId(source).Ok? && c.entry.value.0 == ParseProjectId(source).value
  {
    match ParseProjectId(source)
    case Err(f) => Caught(source, Contribution(None, [], Some(f)))
    case Ok(id) =>
      if source.kind == "modrinth" then Caught(source, FetchModrinth(id, env))
      else if source.kind == "curseforge" then Caught(source, FetchCurseforgeAsWritten(id, env))
      else Contribution(None, [UnsupportedLine(id, source.kind)], None)
  }

  /**
   * A CurseForge mod whose files are all incompatible is reported twice as
   * written: once as meant and once more for the NameError that follows.
   * The corrected look-up reports it once.
   */
  lemma NoCompatibleFileReportedTwice(source: ModSource, env: Env, projects: seq<CfProject>, files: seq<CfFile>)
    requires source.kind == "curseforge" && ParseProjectId(source).Ok?
    requires Get(SearchEndpoint(ParseProjectId(source).value), env.api.search, env.settings) == Ok(projects) && projects != []
    requires Get(FilesEndpoint(projects[0].id), env.api.files, env.settings) == Ok(files) && files != []
    requires forall i :: 0 <= i < |files| ==> !CfCompatible(files[i], env.minecraft)
    ensures RetrieveModInfoSafelyAsWritten(source, env).failures ==
      [NoCompatible(projects[0].name), FailureLine(source, UndefinedName("mod_source"))]
    ensures RetrieveModInfoSafely(source, env).failures == [NoCompatible(projects[0].name)]
  {
    NoCompatibleOutcomes(ParseProjectId(source).value, env, projects, files);
  }

  /** What the two CurseForge look-ups leave when no file is compatible. */
  lemma NoCompatibleOutcomes(slug: string, env: Env, projects: seq<CfProject>, files: seq<CfFile>)
    requires Get(SearchEndpoint(slug), env.api.search, env.settings) == Ok(projects) && projects != []
    requires Get(FilesEndpoint(projects[0].id), env.api.files, env.settings) == Ok(files) && files != []
    requires forall i :: 0 <= i < |files| ==> !CfCompatible(files[i], env.minecraft)
    ensures FetchCurseforgeAsWritten(slug, env) ==
      Contribution(None, [NoCompatible(projects[0].name)], Some(UndefinedName("mod_source")))
    ensures FetchCurseforge(slug, env) == Contribution(None, [NoCompatible(projects[0].name)], None)
  {
    CurseforgeListed(slug, env, projects, files);
    NewestCompatible(files, env.minecraft);
    assert CurseforgeOutcome(slug, env) == CfNoneCompatible(projects[0].name);
  }

  // -------------------------------------------- retrieve_latest_versions

  /** `version_info` and `processing_failures` as the look-ups leave them. */
  datatype Gathered = Gathered(versionInfo: map<string, Modrinth.ModInfo>, failures: seq<string>)

  const NothingGathered: Gathered := Gathered(map[], [])

  /** What one look-up does to the shared dict and list. */
  function Record(g: Gathered, c: Contribution): Gathered {
    Gathered(if c.entry.Some? then g.versionInfo[c.entry.value.0 := c.entry.value.1] else g.versionInfo, g.failures + c.failures)
  }

  /** The look-up each source gets. */
  function Look(env: Env): ModSource -> Contribution {
    (source: ModSource) => RetrieveModInfoSafely(source, env)
  }

  function Handler(look: ModSource -> Contribution): (Gathered, ModSource) -> Gathered {
    (g: Gathered, source: ModSource) => Record(g, look(source))
  }

  /** The look-ups of `sources`, one after another. */
  function Gather(sources: seq<ModSource>, look: ModSource -> Contribution): Gathered {
    Batching.Fold(Handler(look), NothingGathered, sources)
  }

  /** The sources tagged with one platform, in configured order. */
  function Tagged(kind: string, urls: seq<string>): (r: seq<ModSource>)
    ensures |r| == |urls|
    ensures forall i :: 0 <= i < |urls| ==> r[i] == ModSource(kind, urls[i])
  {
    seq(|urls|, i requires 0 <= i < |urls| => ModSource(kind, urls[i]))
  }

  /** The seconds slept between two batches. */
  const BatchPause: nat := 2

  /** The warning logged in the `finally` clause, if any look-up failed. */
  function FailedModsWarning(failures: seq<string>): (w: Option<string>)
    ensures w.Some? <==> failures != []
  {
    if failures == [] then None else Some("Failed mods: " + Join(failures, ", "))
  }

  /**
   * `retrieve_latest_versions`: with no source configured nothing is
   * requested; otherwise the sources run in batches of `chunkSize` with a
   * pause between two batches, and the failures are logged at the end. A
   * chunk size of zero is the ValueError of `range`; a negative one runs no
   * batch at all.
   */
  method RetrieveLatestVersions(modrinth: seq<string>, curseforge: seq<string>, chunkSize: int, env: Env)
    returns (r: Result<map<string, Modrinth.ModInfo>, string>, steps: seq<Batching.Step<ModSource>>, warning: Option<string>)
    ensures var sources := Tagged("modrinth", modrinth) + Tagged("curseforge", curseforge);
      if sources == [] || chunkSize < 0 then r == Ok(map[]) && steps == [] && warning.None?
      else if chunkSize == 0 then r == Err(Batching.ZeroStepMessage) && steps == [] && warning.None?
      else
        var g := Gather(sources, Look(env));
        r == Ok(g.versionInfo) && steps == Batching.StepsFrom(sources, chunkSize, BatchPause, 0) &&
        warning == FailedModsWarning(g.failures)
  {
    var sources := CollectModSources(modrinth, curseforge);
    assert sources == Tagged("modrinth", modrinth) + Tagged("curseforge", curseforge);
    if sources == [] {
      return Ok(map[]), [], None;
    }
    var run := Batching.RunBatches(sources, chunkSize, BatchPause, Handler(Look(env)), NothingGathered);
    if run.Err? {
      return Err(run.error), [], None;
    }
    var (g, s) := run.value;
    r, steps, warning := Ok(g.versionInfo), s, FailedModsWarning(g.failures);
  }

  /** The look-up of `source` recorded an entry under `key`. */
  predicate Produces(look: ModSource -> Contribution, source: ModSource, key: string) {
    look(source).entry.Some? && look(source).entry.value.0 == key
  }

  /** `version_info` holds a key exactly when some source's look-up produced it. */
  lemma {:induction false} GatherKeys(sources: seq<ModSource>, look: ModSource -> Contribution)
    ensures forall k :: k in Gather(sources, look).versionInfo <==> exists i :: 0 <= i < |sources| && Produces(look, sources[i], k)
    decreases |sources|
  {
    if sources != [] {
      var init := sources[..|sources| - 1];
      GatherKeys(init, look);
      var c := look(sources[|sources| - 1]);
      var before := Gather(init, look).versionInfo;
      assert Gather(sources, look) == Record(Gather(init, look), c);
      forall k ensures k in Gather(sources, look).versionInfo <==> exists i :: 0 <= i < |sources| && Produces(look, sources[i], k) {
        if Produces(look, sources[|sources| - 1], k) {
          assert k in Gather(sources, look).versionInfo;
        }
        if exists i :: 0 <= i < |sources| && Produces(look, sources[i], k) {
          var i :| 0 <= i < |sources| && Produces(look, sources[i], k);
          if i < |init| {
            assert Produces(look, init[i], k);
          }
        }
        if exists i :: 0 <= i < |init| && Produces(look, init[i], k) {
          var i :| 0 <= i < |init| && Produces(look, init[i], k);
          assert Produces(look, sources[i], k);
        }
      }
    }
  }

  /** The record under each key is that of a look-up that produced the key. */
  lemma {:induction false} GatherRecords(sources: seq<ModSource>, look: ModSource -> Contribution)
    ensures var vi := Gather(sources, look).versionInfo;
      forall k :: k in vi ==>
        exists i :: 0 <= i < |sources| && Produces(look, sources[i], k) && vi[k] == look(sources[i]).entry.value.1
    decreases |sources|
  {
    if sources != [] {
      var init := sources[..|sources| - 1];
      GatherRecords(init, look);
      var before := Gather(init, look).versionInfo;
      var vi := Gather(sources, look).versionInfo;
      var c := look(sources[|sources| - 1]);
      forall k | k in vi
        ensures exists i :: 0 <= i < |sources| && Produces(look, sources[i], k) && vi[k] == look(sources[i]).entry.value.1
      {
        if c.entry.Some? && c.entry.value.0 == k {
          assert Produces(look, sources[|sources| - 1], k);
        } else {
          var i :| 0 <= i < |init| && Produces(look, init[i], k) && before[k] == look(init[i]).entry.value.1;
          assert sources[i] == init[i];
        }
      }
    }
  }

  /** The number of sources whose look-up recorded no entry. */
  function Missed(sources: seq<ModSource>, look: ModSource -> Contribution): nat {
    if sources == [] then 0
    else Missed(sources[..|sources| - 1], look) + (if look(sources[|sources| - 1]).entry.None? then 1 else 0)
  }

  /** Each source's look-up ends with an entry or with one failure line. */
  ghost predicate OneLineOrEntry(look: ModSource -> Contribution) {
    forall source :: |look(source).failures| + (if look(source).entry.Some? then 1 else 0) == 1
  }

  /** The look-up of `_retrieve_mod_info_safely` records one line or one entry per source. */
  lemma SafeLookOneLine(env: Env)
    ensures OneLineOrEntry(Look(env))
  {
    forall source ensures |Look(env)(source).failures| + (if Look(env)(source).entry.Some? then 1 else 0) == 1 {
      var c := RetrieveModInfoSafely(source, env);
    }
  }

  /** One failure line per source that recorded no entry, and none for the others. */
  lemma {:induction false} GatherFailureCount(sources: seq<ModSource>, look: ModSource -> Contribution)
    requires OneLineOrEntry(look)
    ensures |Gather(sources, look).failures| == Missed(sources, look) <= |sources|
    decreases |sources|
  {
    if sources != [] {
      var init := sources[..|sources| - 1];
      GatherFailureCount(init, look);
      var c := look(sources[|sources| - 1]);
      assert |c.failures| + (if c.entry.Some? then 1 else 0) == 1;
    }
  }

  // ------------------------------------------ maintain_backup_retention

  /** The glob of `maintain_backup_retention`. */
  const ArchiveGlob: string := "*.tar.gz"

  /** Python's `xs[start:]`: a negative start counts from the end. */
  function SliceFrom<T>(xs: seq<T>, start: int): (r: seq<T>)
    ensures |r| <= |xs| && r == xs[|xs| - |r|..]
    ensures start >= 0 ==> |r| == if start <= |xs| then |xs| - start else 0
    ensures start < 0 ==> |r| == if -start <= |xs| then -start else |xs|
  {
    if start >= 0 then (if start <= |xs| then xs[start..] else [])
    else if -start <= |xs| then xs[|xs| + start..]
    else xs
  }

  function Names(files: seq<Entry>): (r: seq<string>)
    ensures |r| == |files|
    ensures forall i :: 0 <= i < |files| ==> r[i] == files[i].name
  {
    seq(|files|, i requires 0 <= i < |files| => files[i].name)
  }

  /** The names `maintain_backup_retention` tries to delete, in order. */
  function RetentionVictims(entries: seq<Entry>, limit: int): seq<string> {
    Names(SliceFrom(Retention.Listing(entries, ArchiveGlob), limit))
  }

  /**
   * `maintain_backup_retention`: list the archives newest first and delete
   * every one past `limit`; the first failed deletion ends the loop (the
   * error is only logged).
   */
  method MaintainBackupRetention(d: Directory, limit: int) returns (stopped: Option<Removal>, done: nat)
    modifies d
    ensures d.locked == old(d.locked)
    ensures var victims := RetentionVictims(old(d.entries), limit);
      RanUntil(old(d.entries), old(d.locked), victims, done, {}) &&
      d.entries == Removals(old(d.entries), old(d.locked), victims[..done]) &&
      (stopped.Some? <==> done < |victims|) &&
      (stopped.Some? ==> stopped.value == RemovalOutcome(d.entries, d.locked, victims[done]))
  {
    var backups := Retention.Listing(d.entries, ArchiveGlob);
    var doomed := SliceFrom(backups, limit);
    stopped, done := UnlinkEach(d, Names(doomed));
  }

  /**
   * The `for ... unlink()` loop inside the `try`: remove each name in turn;
   * the first failure leaves the loop.
   */
  method UnlinkEach(d: Directory, names: seq<string>) returns (stopped: Option<Removal>, done: nat)
    modifies d
    ensures d.locked == old(d.locked)
    ensures RanUntil(old(d.entries), old(d.locked), names, done, {})
    ensures d.entries == Removals(old(d.entries), old(d.locked), names[..done])
    ensures stopped.Some? <==> done < |names|
    ensures stopped.Some? ==> stopped.value == RemovalOutcome(d.entries, d.locked, names[done])
  {
    ghost var e0, l0 := d.entries, d.locked;
    ghost var attempted: seq<string> := [];
    for i := 0 to |names|
      invariant attempted == names[..i]
      invariant d.entries == Removals(e0, l0, attempted) && d.locked == l0
      invariant forall j :: 0 <= j < |attempted| ==> !Stops(e0, l0, attempted[..j], attempted[j], {})
    {
      RemovalsStep(e0, l0, attempted, names[i]);
      var r := d.Remove(names[i]);
      if !r.Removed? {
        Retention.PrefixRun(e0, l0, names, attempted, {});
        return Some(r), i;
      }
      Retention.NoStopExtends(e0, l0, attempted, names[i], {});
      assert names[..i + 1] == attempted + [names[i]];
      attempted := attempted + [names[i]];
    }
    assert attempted == names;
    Retention.PrefixRun(e0, l0, names, attempted, {});
    return None, |names|;
  }

  /**
   * The archives kept are the newest ones: with a limit of n >= 0 the first
   * n of the newest-first listing stay, and every archive kept is at least
   * as recent as every archive deleted. A negative limit deletes the oldest
   * -n archives instead.
   */
  lemma RetentionKeepsNewest(entries: seq<Entry>, limit: int)
    ensures var listing := Retention.Listing(entries, ArchiveGlob);
      var victims := RetentionVictims(entries, limit);
      var kept := |listing| - |victims|;
      0 <= kept <= |listing| &&
      victims == Names(listing[kept..]) &&
      (limit >= 0 ==> kept == if limit <= |listing| then limit else |listing|) &&
      (limit < 0 ==> |victims| == if -limit <= |listing| then -limit else |listing|) &&
      (forall a, b :: 0 <= a < kept <= b < |listing| ==> listing[a].mtime >= listing[b].mtime)
  {
    var listing := Retention.Listing(entries, ArchiveGlob);
    forall a, b | 0 <= a < b < |listing| ensures listing[a].mtime >= listing[b].mtime {
      assert Retention.MTime(listing[a]) >= Retention.MTime(listing[b]);
    }
  }
}
