/**
 * The mod service of the newer Go layer (internal/service/mods.go): the
 * project-id parse, the retry loop around every request, the mapping of an
 * HTTP status to an `APIError`, the choice of the latest version, the
 * download's skip rule, and the sorting of each source into updated, skipped
 * or failed.
 *
 * The network and the file system are parameters: `Reply` is what one attempt
 * of a request gets, `DownloadEnv` what the file system and the transfers
 * report for one download. Sleeping is counted, not performed. The code
 * updates the sources concurrently, each independently of the others and
 * merged under a mutex; here they are updated one after another in
 * configured order.
 */
module Mods {
  import opened Results
  import opened Text
  import Domain

  // -------------------------------------------------------------- project id

  /** The text before the first '/' (all of it when there is none): Go's cut at `strings.Index(s, "/")`. */
  function BeforeSlash(s: string): (r: string)
    ensures '/' !in r
    ensures HasPrefix(s, r)
    ensures |r| < |s| ==> s[|r|] == '/'
  {
    if s == [] || s[0] == '/' then [] else [s[0]] + BeforeSlash(s[1..])
  }

  /**
   * `parseProjectID`: an input without '/' is a bare slug; otherwise the
   * segment after the last "/mod/" (one extra leading '/' dropped), which
   * must not be empty.
   */
  function ParseProjectID(modUrl: string): (r: Result<string, string>)
    ensures '/' !in modUrl ==> r == Ok(modUrl)
    ensures '/' in modUrl && r.Ok? ==> r.value != [] && '/' !in r.value
    ensures '/' in modUrl && LastIndex(modUrl, "/mod/").None? ==> r.Err?
    ensures r.Err? ==> r.error == "invalid Modrinth URL: " + modUrl
  {
    if '/' !in modUrl then Ok(modUrl)
    else
      match LastIndex(modUrl, "/mod/")
      case None => Err("invalid Modrinth URL: " + modUrl)
      case Some(idx) =>
        var after := modUrl[idx + 5..];
        var trimmed := if HasPrefix(after, "/") then after[1..] else after;
        var slug := BeforeSlash(trimmed);
        if slug != [] then Ok(slug) else Err("invalid Modrinth URL: " + modUrl)
  }

  /** The slug is the segment after the last "/mod/". */
  lemma ParsesModUrl(prefix: string, slug: string, tail: string)
    requires slug != [] && '/' !in slug
    requires tail == [] || tail[0] == '/'
    requires forall j :: |prefix| < j ==> !OccursAt(prefix + "/mod/" + slug + tail, "/mod/", j)
    ensures ParseProjectID(prefix + "/mod/" + slug + tail) == Ok(slug)
  {
    var url := prefix + "/mod/" + slug + tail;
    var idx := |prefix|;
    assert url[idx..idx + 5] == "/mod/";
    assert url[idx] == '/';
    var found := LastIndexUpTo(url, "/mod/", |url|);
    assert found == Some(idx) by {
      LastIndexFinds(url, "/mod/", |url|, idx);
    }
    assert url[idx + 5..] == slug + tail;
    assert (slug + tail)[0] == slug[0];
    BeforeSlashOf(slug, tail);
  }

  lemma {:induction false} LastIndexFinds(s: string, sub: string, k: int, p: nat)
    requires p <= k && OccursAt(s, sub, p)
    requires forall j :: p < j ==> !OccursAt(s, sub, j)
    ensures LastIndexUpTo(s, sub, k) == Some(p)
    decreases k - p
  {
    if k > p {
      LastIndexFinds(s, sub, k - 1, p);
    }
  }

  lemma {:induction false} BeforeSlashOf(slug: string, tail: string)
    requires '/' !in slug
    requires tail == [] || tail[0] == '/'
    ensures BeforeSlash(slug + tail) == slug
    decreases |slug|
  {
    if slug != [] {
      assert (slug + tail)[1..] == slug[1..] + tail;
      BeforeSlashOf(slug[1..], tail);
    } else {
      assert slug + tail == tail;
    }
  }


  // ------------------------------------------------------------------ retry

  /** Why one call of a retried operation failed: an `APIError`, or any other error. */
  datatype OpError = ApiFailure(api: Domain.APIError) | OtherFailure(message: string)

  function OpErrorText(e: OpError): string {
    match e
    case ApiFailure(api) => Domain.APIErrorText(api)
    case OtherFailure(m) => m
  }

  /** An `APIError` that is not retryable ends the loop at once; any other error is retried. */
  predicate Final(e: OpError) {
    e.ApiFailure? && !Domain.IsRetryable(e.api)
  }

  /** A run of `withRetry`: the error it returns, how often it called the operation, how often it waited. */
  datatype RetryRun = RetryRun(err: Option<OpError>, calls: nat, waits: nat)

  /**
   * `withRetry` from attempt `attempt` on, `last` being the error held so
   * far; `op(k)` is what the k-th call returns. The loop makes
   * `maxRetries + 1` attempts at most and waits only when another follows.
   */
  function RetryFrom(op: nat -> Option<OpError>, attempt: nat, maxRetries: int, last: Option<OpError>): RetryRun
    decreases maxRetries + 1 - attempt
  {
    if attempt > maxRetries then RetryRun(last, 0, 0)
    else
      match op(attempt)
      case None => RetryRun(None, 1, 0)
      case Some(e) =>
        if Final(e) || attempt == maxRetries then RetryRun(Some(e), 1, 0)
        else
          var rest := RetryFrom(op, attempt + 1, maxRetries, Some(e));
          RetryRun(rest.err, rest.calls + 1, rest.waits + 1)
  }

  /** Every call from `from` up to `to` failed with an error that is retried. */
  predicate RetriedThrough(op: nat -> Option<OpError>, from: nat, to: nat) {
    forall k :: from <= k < to ==> op(k).Some? && !Final(op(k).value)
  }

  /**
   * What a run from `attempt` on does: nothing once the attempts are used
   * up; otherwise between one and the remaining number of calls, one wait
   * fewer than calls, every call but the last failed with a retried error,
   * and the result is what the last call returned.
   */
  lemma {:induction false} RetryShape(op: nat -> Option<OpError>, attempt: nat, maxRetries: int, last: Option<OpError>)
    ensures var r := RetryFrom(op, attempt, maxRetries, last);
      (attempt > maxRetries ==> r == RetryRun(last, 0, 0)) &&
      (attempt <= maxRetries ==>
        1 <= r.calls <= maxRetries + 1 - attempt && r.waits == r.calls - 1 &&
        r.err == op(attempt + r.calls - 1) && RetriedThrough(op, attempt, attempt + r.calls - 1))
    decreases maxRetries + 1 - attempt
  {
    if attempt <= maxRetries && op(attempt).Some? && !Final(op(attempt).value) && attempt < maxRetries {
      RetryShape(op, attempt + 1, maxRetries, op(attempt));
    }
  }

  /** The loop ends early only on success or on an error that is not retried. */
  lemma {:induction false} RetryStopsEarly(op: nat -> Option<OpError>, attempt: nat, maxRetries: int, last: Option<OpError>)
    requires attempt <= maxRetries
    ensures var r := RetryFrom(op, attempt, maxRetries, last);
      attempt + r.calls - 1 < maxRetries ==> r.err.None? || Final(r.err.value)
    decreases maxRetries + 1 - attempt
  {
    if op(attempt).Some? && !Final(op(attempt).value) && attempt < maxRetries {
      RetryStopsEarly(op, attempt + 1, maxRetries, op(attempt));
    }
  }

  /** An operation that always fails with a retried error is called `maxRetries + 1` times. */
  lemma AlwaysRetried(op: nat -> Option<OpError>, maxRetries: int)
    requires maxRetries >= 0 && RetriedThrough(op, 0, maxRetries + 1)
    ensures RetryFrom(op, 0, maxRetries, None) == RetryRun(op(maxRetries), maxRetries + 1, maxRetries)
  {
    RetryShape(op, 0, maxRetries, None);
    RetryStopsEarly(op, 0, maxRetries, None);
  }

  /** With a negative retry count the operation is never called and the run reports success. */
  lemma NegativeRetriesNeverCall(op: nat -> Option<OpError>, maxRetries: int)
    requires maxRetries < 0
    ensures RetryFrom(op, 0, maxRetries, None) == RetryRun(None, 0, 0)
  {
  }

  /** `withRetry`: the loop over attempts, returning the last error. */
  method WithRetry(op: nat -> Option<OpError>, maxRetries: int) returns (err: Option<OpError>, calls: nat, waits: nat)
    ensures RetryRun(err, calls, waits) == RetryFrom(op, 0, maxRetries, None)
  {
    ghost var whole := RetryFrom(op, 0, maxRetries, None);
    err, calls, waits := None, 0, 0;
    var attempt: nat := 0;
    while attempt < maxRetries + 1
      invariant calls == attempt
      invariant var rest := RetryFrom(op, attempt, maxRetries, err);
        whole == RetryRun(rest.err, calls + rest.calls, waits + rest.waits)
      decreases maxRetries + 1 - attempt
    {
      var e := op(attempt);
      calls := calls + 1;
      if e.None? {
        return None, calls, waits;
      }
      err := e;
      if Final(e.value) {
        return;
      }
      if attempt < maxRetries {
        waits := waits + 1;
      }
      attempt := attempt + 1;
    }
  }

  // ------------------------------------------------------------- requests

  /** What one attempt of a GET gets: the status and the decoded body (or the decode error), or no response. */
  datatype Reply<T> = Reply(status: int, body: Result<T, string>) | NoResponse(err: string)

  /** One attempt of `apiRequest`: a status other than 200 becomes an `APIError` carrying the URL and the status. */
  function AttemptError<T>(url: string, reply: Reply<T>): (r: Option<OpError>)
    ensures r.None? <==> reply.Reply? && reply.status == 200 && reply.body.Ok?
    ensures reply.Reply? && reply.status != 200 ==> r == Some(ApiFailure(Domain.APIError(url, reply.status, "request failed")))
    ensures r.Some? && r.value.ApiFailure? ==> reply.Reply? && r.value.api.statusCode == reply.status
  {
    match reply
    case NoResponse(e) => Some(OtherFailure(e))
    case Reply(status, body) =>
      if status != 200 then Some(ApiFailure(Domain.APIError(url, status, "request failed")))
      else if body.Err? then Some(OtherFailure(body.error))
      else None
  }

  function Attempts<T>(url: string, replies: nat -> Reply<T>): nat -> Option<OpError> {
    (k: nat) => AttemptError(url, replies(k))
  }

  /**
   * `apiRequest`: the retried GET; the value decoded by the successful
   * attempt, or the last error. When no attempt is made the target keeps
   * its zero value `zero`.
   */
  function ApiRequest<T>(url: string, replies: nat -> Reply<T>, maxRetries: int, zero: T): (r: Result<T, OpError>)
    ensures maxRetries < 0 ==> r == Ok(zero)
    ensures maxRetries >= 0 && r.Ok? ==> exists k :: 0 <= k <= maxRetries && replies(k) == Reply(200, Ok(r.value))
  {
    var run := RetryFrom(Attempts(url, replies), 0, maxRetries, None);
    RetryShape(Attempts(url, replies), 0, maxRetries, None);
    if run.err.Some? then Err(run.err.value)
    else if run.calls == 0 then Ok(zero)
    else
      var reply := replies(run.calls - 1);
      assert AttemptError(url, reply).None?;
      Ok(reply.body.value)
  }

  /** A status that is not retryable (404, say) fails after one attempt, with an `APIError` naming it. */
  lemma NotRetryableStatusFailsAtOnce<T>(url: string, replies: nat -> Reply<T>, maxRetries: int, zero: T)
    requires maxRetries >= 0 && replies(0).Reply? && replies(0).status != 200
    requires replies(0).status < 500 && replies(0).status != 429
    ensures ApiRequest(url, replies, maxRetries, zero) == Err(ApiFailure(Domain.APIError(url, replies(0).status, "request failed")))
    ensures RetryFrom(Attempts(url, replies), 0, maxRetries, None).calls == 1
  {
  }

  /** A decoded Modrinth version: missing files decode as an empty list. */
  datatype ModrinthFile = ModrinthFile(url: string, filename: string)
  datatype ModrinthVersion = ModrinthVersion(id: string, versionNumber: string, files: seq<ModrinthFile>)

  function VersionsUrl(projectId: string, version: string, modloader: string): string {
    "https://api.modrinth.com/v2/project/" + projectId + "/version?game_versions=[\"" + version + "\"]&loaders=[\"" + modloader + "\"]"
  }

  /** The first version, with its first file, describes the mod; the project id is its name. */
  function LatestVersion(projectId: string, versions: seq<ModrinthVersion>): (r: Result<Domain.ModInfo, string>)
    ensures r.Ok? <==> versions != [] && versions[0].files != []
    ensures versions == [] ==> r == Err("no compatible versions found")
    ensures versions != [] && r.Err? ==> r == Err("no files in version")
    ensures r.Ok? ==> r.value.projectName == projectId && r.value.versionId == versions[0].id
    ensures r.Ok? ==> ModrinthFile(r.value.downloadUrl, r.value.filename) == versions[0].files[0]
  {
    if versions == [] then Err("no compatible versions found")
    else
      var v := versions[0];
      if v.files == [] then Err("no files in version")
      else Ok(Domain.ModInfo(v.id, v.versionNumber, v.files[0].url, v.files[0].filename, projectId))
  }

  /** The Modrinth settings the service reads. */
  datatype ModSettings = ModSettings(version: string, modloader: string, maxRetries: int, dryRun: bool)

  /** `fetchLatestVersion`: the retried request for the compatible versions, then the choice. */
  function FetchLatestVersion(projectId: string, settings: ModSettings, replies: nat -> Reply<seq<ModrinthVersion>>): Result<Domain.ModInfo, string> {
    match ApiRequest(VersionsUrl(projectId, settings.version, settings.modloader), replies, settings.maxRetries, [])
    case Err(e) => Err(OpErrorText(e))
    case Ok(versions) => LatestVersion(projectId, versions)
  }

  // ---------------------------------------------------------------- download

  /**
   * What the file system and the transfer report for one download: the
   * error of creating the mods directory, whether the target exists, the
   * error of creating the temporary file, each transfer attempt's error,
   * and the error of the final rename.
   */
  datatype DownloadEnv = DownloadEnv(
    mkdir: Option<string>, targetExists: bool, createTemp: Option<string>,
    transfer: nat -> Option<string>, rename: Option<string>)

  /** Transfer errors are never `APIError`s, so each of them is retried. */
  function TransferAttempts(transfer: nat -> Option<string>): nat -> Option<OpError> {
    (k: nat) => if transfer(k).Some? then Some(OtherFailure(transfer(k).value)) else None
  }

  /** `downloadMod`: whether the mod was written, and the error. */
  function DownloadMod(dryRun: bool, force: bool, maxRetries: int, env: DownloadEnv): (r: (bool, Option<string>))
    ensures r.0 ==> r.1.None?
    ensures dryRun ==> r == (true, None)
    ensures !dryRun && env.mkdir.Some? ==> r == (false, env.mkdir)
    ensures !dryRun && env.mkdir.None? && !force && env.targetExists ==> r == (false, None)
  {
    if dryRun then (true, None)
    else if env.mkdir.Some? then (false, env.mkdir)
    else if !force && env.targetExists then (false, None)
    else if env.createTemp.Some? then (false, env.createTemp)
    else
      var run := RetryFrom(TransferAttempts(env.transfer), 0, maxRetries, None);
      if run.err.Some? then (false, Some(OpErrorText(run.err.value)))
      else if env.rename.Some? then (false, env.rename)
      else (true, None)
  }

  /** An existing target without `force` is kept: no transfer is attempted, whatever it would report. */
  lemma ExistingTargetMakesNoRequest(force: bool, maxRetries: int, env: DownloadEnv, transfer: nat -> Option<string>)
    requires env.mkdir.None? && !force && env.targetExists
    ensures DownloadMod(false, force, maxRetries, env) == DownloadMod(false, force, maxRetries, env.(transfer := transfer)) == (false, None)
  {
  }

  // ------------------------------------------------------------------ update

  /** The network and the file system for a whole update. */
  datatype Net = Net(versions: string -> (nat -> Reply<seq<ModrinthVersion>>), download: Domain.ModInfo -> DownloadEnv)

  /** What `updateMod` returns: whether the mod was written, the project name ("" when the URL did not parse), the error. */
  datatype Outcome = Outcome(updated: bool, name: string, err: Option<string>)

  /** `updateMod`: the id, the latest version, the download. */
  function UpdateMod(modUrl: string, force: bool, settings: ModSettings, net: Net): (o: Outcome)
    ensures ParseProjectID(modUrl).Err? ==> o == Outcome(false, "", Some(ParseProjectID(modUrl).error))
    ensures ParseProjectID(modUrl).Ok? ==> o.name == ParseProjectID(modUrl).value
    ensures o.updated ==> o.err.None?
  {
    match ParseProjectID(modUrl)
    case Err(e) => Outcome(false, "", Some(e))
    case Ok(id) =>
      var replies := net.versions(VersionsUrl(id, settings.version, settings.modloader));
      match FetchLatestVersion(id, settings, replies)
      case Err(e) => Outcome(false, id, Some(e))
      case Ok(info) =>
        var r := DownloadMod(settings.dryRun, force, settings.maxRetries, net.download(info));
        Outcome(r.0, info.projectName, r.1)
  }

  /** Where one source lands in the result, and under which key. */
  datatype Landing = FailedAs(key: string, message: string) | UpdatedAs(key: string) | SkippedAs(key: string)

  /** The key is the project name, or the source itself when the name is empty; the error decides first. */
  function Land(src: string, o: Outcome): (l: Landing)
    ensures l.key == (if o.name == "" then src else o.name)
    ensures l.FailedAs? <==> o.err.Some?
    ensures l.UpdatedAs? <==> o.err.None? && o.updated
  {
    var key := if o.name == "" then src else o.name;
    if o.err.Some? then FailedAs(key, o.err.value)
    else if o.updated then UpdatedAs(key)
    else SkippedAs(key)
  }

  function Landings(force: bool, settings: ModSettings, net: Net): string -> Landing {
    src => Land(src, UpdateMod(src, force, settings, net))
  }

  /** The result after the given sources, taken in order. */
  function Collect(sources: seq<string>, landing: string -> Landing): Domain.ModUpdateResult {
    if sources == [] then Domain.ModUpdateResult([], map[], [])
    else
      Place(Collect(sources[..|sources| - 1], landing), landing(sources[|sources| - 1]))
  }

  /** The result with one more source placed where it landed. */
  function Place(prev: Domain.ModUpdateResult, l: Landing): Domain.ModUpdateResult {
    match l
    case FailedAs(key, m) => prev.(failed := prev.failed[key := m])
    case UpdatedAs(key) => prev.(updated := prev.updated + [key])
    case SkippedAs(key) => prev.(skipped := prev.skipped + [key])
  }

  /** How many of the sources failed. */
  function FailureCount(sources: seq<string>, landing: string -> Landing): nat {
    if sources == [] then 0
    else FailureCount(sources[..|sources| - 1], landing) + (if landing(sources[|sources| - 1]).FailedAs? then 1 else 0)
  }

  /**
   * Every source lands in exactly one of the three: the updated and skipped
   * lists together with the failures account for all sources, the failure
   * keys are those of the failed sources, and every listed name is the key of
   * a source that landed there.
   */
  lemma {:induction false} CollectSorts(sources: seq<string>, landing: string -> Landing)
    ensures var r := Collect(sources, landing);
      |r.updated| + |r.skipped| + FailureCount(sources, landing) == |sources| &&
      (forall k :: k in r.failed <==> exists s :: s in sources && landing(s).FailedAs? && landing(s).key == k) &&
      (forall k :: k in r.failed ==> exists s :: s in sources && landing(s) == FailedAs(k, r.failed[k])) &&
      (forall x :: x in r.updated ==> exists s :: s in sources && landing(s) == UpdatedAs(x)) &&
      (forall x :: x in r.skipped ==> exists s :: s in sources && landing(s) == SkippedAs(x))
  {
    if sources != [] {
      var init := sources[..|sources| - 1];
      var last := sources[|sources| - 1];
      CollectSorts(init, landing);
      assert sources == init + [last];
      assert forall s :: s in sources <==> s in init || s == last;
    }
  }

  /** Collecting one more source places it where it landed. */
  lemma CollectStep(sources: seq<string>, i: nat, landing: string -> Landing)
    requires i < |sources|
    ensures Collect(sources[..i + 1], landing) == Place(Collect(sources[..i], landing), landing(sources[i]))
  {
    assert sources[..i + 1][..i] == sources[..i];
  }

  /** `UpdateAll`: with no sources the result is empty; otherwise each source is updated and sorted by its outcome. */
  method UpdateAll(sources: seq<string>, force: bool, settings: ModSettings, net: Net) returns (res: Domain.ModUpdateResult)
    ensures res == Collect(sources, Landings(force, settings, net))
    ensures sources == [] ==> res == Domain.ModUpdateResult([], map[], [])
  {
    res := Domain.ModUpdateResult([], map[], []);
    if |sources| == 0 {
      return;
    }
    for i := 0 to |sources|
      invariant res == Collect(sources[..i], Landings(force, settings, net))
    {
      CollectStep(sources, i, Landings(force, settings, net));
      res := UpdateOne(res, sources[i], force, settings, net);
    }
    assert sources[..|sources|] == sources;
  }

  /** The loop body of `UpdateAll`: update one source and record it under its key. */
  method UpdateOne(res: Domain.ModUpdateResult, src: string, force: bool, settings: ModSettings, net: Net)
    returns (next: Domain.ModUpdateResult)
    ensures next == Place(res, Landings(force, settings, net)(src))
  {
    var o := UpdateMod(src, force, settings, net);
    var name := if o.name == "" then src else o.name;
    if o.err.Some? {
      next := res.(failed := res.failed[name := o.err.value]);
    } else if o.updated {
      next := res.(updated := res.updated + [name]);
    } else {
      next := res.(skipped := res.skipped + [name]);
    }
  }
}
