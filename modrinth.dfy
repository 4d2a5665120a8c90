/**
 * The Modrinth API as the Python mod managers use it (MinecraftModManager.py
 * and minecraft_mod_manager/managers/mod.py): the decoded project and version
 * records, the choice of the release to install, and the retrying GET helper
 * `make_request` that both files define with the same logic.
 *
 * The network is a parameter: `respond(k)` is what the k-th attempt of one
 * request (counting from the first, k = retry_count) receives.
 */
module Modrinth {
  import opened Results
  import opened Text

  datatype FileRef = FileRef(url: string, filename: string)

  /** One element of `/v2/project/{id}/version`, newest first as the API lists them. */
  datatype Release = Release(
    id: string,
    versionNumber: string,
    gameVersions: seq<string>,
    loaders: seq<string>,
    files: seq<FileRef>)

  /** `/v2/project/{id}`: only the title is used; None when the key is absent. */
  datatype Project = Project(title: Option<string>)

  /** The record stored in `mod_info[url]`. */
  datatype ModInfo = ModInfo(
    versionId: string,
    versionNumber: string,
    downloadUrl: string,
    filename: string,
    projectName: string)

  /** What looking one mod up produced: its record, or the line for the failure list. */
  datatype Lookup = Found(info: ModInfo) | Failed(message: string)

  // ------------------------------------------------------ compatibility

  function LowerAll(xs: seq<string>): (r: seq<string>)
    ensures |r| == |xs|
    ensures forall i :: 0 <= i < |xs| ==> r[i] == Lower(xs[i])
  {
    if xs == [] then [] else [Lower(xs[0])] + LowerAll(xs[1..])
  }

  /**
   * The filter of MinecraftModManager.py and `_check_version_compatibility`:
   * the server version is one of the release's game versions, and the
   * lower-cased loader is in the lower-cased loader list.
   */
  predicate CompatibleByMembership(r: Release, version: string, modloader: string) {
    version in r.gameVersions && Lower(modloader) in LowerAll(r.loaders)
  }

  /** The filter of `fetch_latest_versions` in mod.py: some loader equals the configured one, ignoring case. */
  predicate CompatibleByAny(r: Release, version: string, modloader: string) {
    version in r.gameVersions && exists i :: 0 <= i < |r.loaders| && Lower(r.loaders[i]) == Lower(modloader)
  }

  /** The two ways the code writes the filter accept the same releases. */
  lemma CompatibilityFormsAgree(r: Release, version: string, modloader: string)
    ensures CompatibleByMembership(r, version, modloader) <==> CompatibleByAny(r, version, modloader)
  {
    var lowered := LowerAll(r.loaders);
    if Lower(modloader) in lowered {
      var i :| 0 <= i < |lowered| && lowered[i] == Lower(modloader);
      assert Lower(r.loaders[i]) == Lower(modloader);
    }
    if CompatibleByAny(r, version, modloader) {
      var i :| 0 <= i < |r.loaders| && Lower(r.loaders[i]) == Lower(modloader);
      assert lowered[i] == Lower(modloader);
    }
  }

  /** The list comprehension `[v for v in versions if compatible(v)]`. */
  function CompatibleReleases(releases: seq<Release>, version: string, modloader: string): (r: seq<Release>)
    ensures |r| <= |releases|
    ensures forall x :: x in r <==> x in releases && CompatibleByMembership(x, version, modloader)
  {
    if releases == [] then []
    else if CompatibleByMembership(releases[0], version, modloader) then
      [releases[0]] + CompatibleReleases(releases[1..], version, modloader)
    else CompatibleReleases(releases[1..], version, modloader)
  }

  /** `k` is the position of the first compatible release. */
  predicate FirstCompatibleAt(releases: seq<Release>, version: string, modloader: string, k: int) {
    0 <= k < |releases| && CompatibleByMembership(releases[k], version, modloader) &&
    forall j :: 0 <= j < k ==> !CompatibleByMembership(releases[j], version, modloader)
  }

  /** `compatible_versions[0]` is the first compatible release in API order. */
  lemma {:induction false} FilterHeadIsFirst(releases: seq<Release>, version: string, modloader: string)
    ensures var c := CompatibleReleases(releases, version, modloader);
      c != [] ==> exists k :: FirstCompatibleAt(releases, version, modloader, k) && releases[k] == c[0]
  {
    if releases != [] && !CompatibleByMembership(releases[0], version, modloader) {
      var c := CompatibleReleases(releases[1..], version, modloader);
      FilterHeadIsFirst(releases[1..], version, modloader);
      if c != [] {
        var k :| FirstCompatibleAt(releases[1..], version, modloader, k) && releases[1..][k] == c[0];
        assert FirstCompatibleAt(releases, version, modloader, k + 1) by {
          forall j | 0 <= j < k + 1 ensures !CompatibleByMembership(releases[j], version, modloader) {
            if j > 0 {
              assert releases[j] == releases[1..][j - 1];
            }
          }
        }
      }
    } else if releases != [] {
      assert FirstCompatibleAt(releases, version, modloader, 0);
    }
  }

  /** The record for the chosen release; the download is its first file. */
  function Describe(r: Release, projectName: string): ModInfo
    requires r.files != []
  {
    ModInfo(r.id, r.versionNumber, r.files[0].url, r.files[0].filename, projectName)
  }

  function NoCompatibleMessage(modName: string, version: string, modloader: string): string {
    modName + " (no compatible version for MC " + version + " with " + modloader + ")"
  }

  /**
   * The end of `_fetch_mod_info` once the version list is in hand: the first
   * compatible release, or the "no compatible version" line; a release without
   * files fails with Python's IndexError text.
   */
  function Choose(releases: seq<Release>, version: string, modloader: string, modName: string): (r: Lookup)
    ensures r.Found? <==> (exists k :: FirstCompatibleAt(releases, version, modloader, k) && releases[k].files != [])
    ensures r.Found? ==>
      exists k :: FirstCompatibleAt(releases, version, modloader, k) && releases[k].files != [] && r.info == Describe(releases[k], modName)
    ensures (forall x :: x in releases ==> !CompatibleByMembership(x, version, modloader)) ==>
      r == Failed(NoCompatibleMessage(modName, version, modloader))
    ensures (exists k :: FirstCompatibleAt(releases, version, modloader, k) && releases[k].files == []) ==>
      r == Failed(modName + " (list index out of range)")
  {
    var compatible := CompatibleReleases(releases, version, modloader);
    FilterHeadIsFirst(releases, version, modloader);
    FirstCompatibleUnique(releases, version, modloader);
    if compatible == [] then
      assert forall k :: 0 <= k < |releases| ==> !CompatibleByMembership(releases[k], version, modloader) by {
        forall k | 0 <= k < |releases| ensures !CompatibleByMembership(releases[k], version, modloader) {
          assert releases[k] in releases;
        }
      }
      Failed(NoCompatibleMessage(modName, version, modloader))
    else
      var latest := compatible[0];
      if latest.files == [] then Failed(modName + " (list index out of range)")
      else Found(Describe(latest, modName))
  }

  lemma FirstCompatibleUnique(releases: seq<Release>, version: string, modloader: string)
    ensures forall k, k' ::
      (FirstCompatibleAt(releases, version, modloader, k) && FirstCompatibleAt(releases, version, modloader, k')) ==> k == k'
  {
  }

  // ------------------------------------------------------ make_request

  /** What one GET produced: a status with the decoded body, or a transport failure. */
  datatype Reply<B> = Reply(status: int, body: B) | Broken(message: string)

  predicate RateLimited<B>(reply: Reply<B>) {
    reply.Reply? && reply.status == 429
  }

  /** Why an attempt that was not retried failed. */
  datatype Cause = Transport(message: string) | RateLimit | BadStatus(status: int)

  function RateLimitMessage(maxRetries: int): string {
    "Rate limit exceeded after " + IntToString(maxRetries) + " retries"
  }

  /** The message of the exception the last attempt raises inside its `try`. */
  function CauseText(c: Cause, maxRetries: int): string {
    match c
    case Transport(m) => m
    case RateLimit => RateLimitMessage(maxRetries)
    case BadStatus(status) => "API returned status " + IntToString(status)
  }

  /** One request with its retries: the result of the last attempt, how many GETs were made, and the sleeps in order. */
  datatype Exchange<B> = Exchange(outcome: Result<B, Cause>, attempts: nat, sleeps: seq<nat>)

  /** The outcome of an attempt that is not retried. */
  function FinalFrame<B>(reply: Reply<B>): (r: Result<B, Cause>)
    ensures r.Ok? <==> reply.Reply? && reply.status == 200
    ensures r.Ok? ==> r.value == reply.body
    ensures r == Err(RateLimit) <==> RateLimited(reply)
    ensures r.Err? && r.error.Transport? <==> reply.Broken?
  {
    match reply
    case Broken(m) => Err(Transport(m))
    case Reply(status, body) =>
      if status == 429 then Err(RateLimit)
      else if status != 200 then Err(BadStatus(status))
      else Ok(body)
  }

  /** The back-off before retry `n`, doubled from `baseDelay` once per earlier retry. */
  function Backoff(baseDelay: nat, n: nat): nat {
    if n == 0 then baseDelay else 2 * Backoff(baseDelay, n - 1)
  }

  /** The back-off is `base_delay * (2 ** retry_count)`. */
  lemma {:induction false} BackoffIsPower(baseDelay: nat, n: nat)
    ensures Backoff(baseDelay, n) == baseDelay * Pow2(n)
  {
    if n > 0 {
      BackoffIsPower(baseDelay, n - 1);
      assert baseDelay * Pow2(n) == baseDelay * (2 * Pow2(n - 1));
    }
  }

  /**
   * `make_request(endpoint, retry_count)`: sleep `pause` seconds, GET; on 429
   * with retries left sleep `base_delay * 2 ** retry_count` and try again.
   */
  function MakeRequest<B>(respond: nat -> Reply<B>, retryCount: nat, maxRetries: int, baseDelay: nat, pause: nat): (e: Exchange<B>)
    ensures e.attempts >= 1 && |e.sleeps| == 2 * e.attempts - 1
    decreases if retryCount < maxRetries then maxRetries - retryCount else 0
  {
    var reply := respond(retryCount);
    if RateLimited(reply) && retryCount < maxRetries then
      var inner := MakeRequest(respond, retryCount + 1, maxRetries, baseDelay, pause);
      Exchange(inner.outcome, inner.attempts + 1, [pause, Backoff(baseDelay, retryCount)] + inner.sleeps)
    else
      Exchange(FinalFrame(reply), 1, [pause])
  }

  /** The "Request failed: " prefix that `n` enclosing `except` clauses add while the error propagates. */
  function Wrap(message: string, n: nat): string {
    if n == 0 then message else "Request failed: " + Wrap(message, n - 1)
  }

  /**
   * What `make_request` returns or raises: every attempt's `except` clause
   * wraps the error once, the last attempt's own and one per retry around it.
   */
  function Raised<B>(e: Exchange<B>, maxRetries: int): (r: Result<B, string>)
    ensures r.Ok? <==> e.outcome.Ok?
    ensures r.Ok? ==> r.value == e.outcome.value
  {
    match e.outcome
    case Ok(b) => Ok(b)
    case Err(c) => Err(Wrap(CauseText(c, maxRetries), e.attempts))
  }

  /**
   * A retried attempt re-raises its retry's error with one more prefix, and
   * an attempt that is not retried raises its cause with one prefix.
   */
  lemma RaisedFrames<B>(respond: nat -> Reply<B>, retryCount: nat, maxRetries: int, baseDelay: nat, pause: nat)
    ensures var e := MakeRequest(respond, retryCount, maxRetries, baseDelay, pause);
      var r := Raised(e, maxRetries);
      if RateLimited(respond(retryCount)) && retryCount < maxRetries then
        var inner := Raised(MakeRequest(respond, retryCount + 1, maxRetries, baseDelay, pause), maxRetries);
        r == (if inner.Ok? then inner else Err("Request failed: " + inner.error))
      else
        r == (match FinalFrame(respond(retryCount))
              case Ok(b) => Ok(b)
              case Err(c) => Err("Request failed: " + CauseText(c, maxRetries)))
  {
    var e := MakeRequest(respond, retryCount, maxRetries, baseDelay, pause);
    if e.outcome.Err? {
      var m := CauseText(e.outcome.error, maxRetries);
      assert Wrap(m, e.attempts) == "Request failed: " + Wrap(m, e.attempts - 1);
      assert Wrap(m, 0) == m;
    }
  }

  /**
   * Attempts `retryCount` up to `last` were made: each but the last was rate
   * limited with retries left, and the last was not retried.
   */
  predicate RetriedUntil<B>(respond: nat -> Reply<B>, retryCount: nat, maxRetries: int, last: nat) {
    (forall j :: retryCount <= j < last ==> RateLimited(respond(j)) && j < maxRetries) &&
    !(RateLimited(respond(last)) && last < maxRetries)
  }

  /**
   * The whole trace of one request: every attempt but the last was rate limited
   * with retries left, the last was not retried, the sleeps alternate between
   * the fixed pause and the doubling back-off, and the outcome is the last
   * attempt's.
   */
  lemma RequestTrace<B>(respond: nat -> Reply<B>, retryCount: nat, maxRetries: int, baseDelay: nat, pause: nat)
    ensures var e := MakeRequest(respond, retryCount, maxRetries, baseDelay, pause);
      var last := retryCount + e.attempts - 1;
      RetriedUntil(respond, retryCount, maxRetries, last) &&
      Alternating(e.sleeps, retryCount, baseDelay, pause) &&
      e.outcome == FinalFrame(respond(last))
  {
    RequestAttempts(respond, retryCount, maxRetries, baseDelay, pause);
    RequestSleeps(respond, retryCount, maxRetries, baseDelay, pause);
  }

  /** The attempts of one request run until one is not retried, and that one's outcome is the result. */
  lemma {:induction false} RequestAttempts<B>(respond: nat -> Reply<B>, retryCount: nat, maxRetries: int, baseDelay: nat, pause: nat)
    ensures RetriedUntil(respond, retryCount, maxRetries,
      retryCount + MakeRequest(respond, retryCount, maxRetries, baseDelay, pause).attempts - 1)
    ensures MakeRequest(respond, retryCount, maxRetries, baseDelay, pause).outcome ==
      FinalFrame(respond(retryCount + MakeRequest(respond, retryCount, maxRetries, baseDelay, pause).attempts - 1))
    decreases if retryCount < maxRetries then maxRetries - retryCount else 0
  {
    var e := MakeRequest(respond, retryCount, maxRetries, baseDelay, pause);
    if RateLimited(respond(retryCount)) && retryCount < maxRetries {
      var inner := MakeRequest(respond, retryCount + 1, maxRetries, baseDelay, pause);
      RequestAttempts(respond, retryCount + 1, maxRetries, baseDelay, pause);
      var last := retryCount + e.attempts - 1;
      assert last == retryCount + 1 + inner.attempts - 1;
      assert RetriedUntil(respond, retryCount + 1, maxRetries, retryCount + 1 + inner.attempts - 1);
      assert !(RateLimited(respond(retryCount + 1 + inner.attempts - 1)) && retryCount + 1 + inner.attempts - 1 < maxRetries);
      forall j | retryCount <= j < last ensures RateLimited(respond(j)) && j < maxRetries {
        if j > retryCount {
          assert retryCount + 1 <= j < last;
        }
      }
      assert !(RateLimited(respond(last)) && last < maxRetries);
      assert RetriedUntil(respond, retryCount, maxRetries, last);
    } else {
      assert e.attempts == 1;
    }
  }

  /** The sleeps alternate between the fixed pause and the back-off, which doubles with each retry from `retryCount` on. */
  predicate Alternating(sleeps: seq<nat>, retryCount: nat, baseDelay: nat, pause: nat) {
    (forall k :: 0 <= k < |sleeps| && k % 2 == 0 ==> sleeps[k] == pause) &&
    (forall k :: 0 <= k < |sleeps| && k % 2 == 1 ==> sleeps[k] == Backoff(baseDelay, retryCount + k / 2))
  }

  /** The sleeps of one request alternate between the fixed pause and the doubling back-off. */
  lemma {:induction false} RequestSleeps<B>(respond: nat -> Reply<B>, retryCount: nat, maxRetries: int, baseDelay: nat, pause: nat)
    ensures Alternating(MakeRequest(respond, retryCount, maxRetries, baseDelay, pause).sleeps, retryCount, baseDelay, pause)
    decreases if retryCount < maxRetries then maxRetries - retryCount else 0
  {
    var e := MakeRequest(respond, retryCount, maxRetries, baseDelay, pause);
    if RateLimited(respond(retryCount)) && retryCount < maxRetries {
      var inner := MakeRequest(respond, retryCount + 1, maxRetries, baseDelay, pause);
      RequestSleeps(respond, retryCount + 1, maxRetries, baseDelay, pause);
      assert e.sleeps == [pause, Backoff(baseDelay, retryCount)] + inner.sleeps;
      forall k | 2 <= k < |e.sleeps|
        ensures k % 2 == 0 ==> e.sleeps[k] == pause
        ensures k % 2 == 1 ==> e.sleeps[k] == Backoff(baseDelay, retryCount + k / 2)
      {
        assert e.sleeps[k] == inner.sleeps[k - 2];
        HalfStep(k);
      }
    }
  }

  lemma HalfStep(k: int)
    requires k >= 2
    ensures (k - 2) / 2 == k / 2 - 1 && (k - 2) % 2 == k % 2
  {
  }

  /** A server that always answers 429 is asked `max_retries - retry_count + 1` times and the rate-limit error comes back. */
  lemma AlwaysRateLimited<B>(respond: nat -> Reply<B>, retryCount: nat, maxRetries: int, baseDelay: nat, pause: nat)
    requires forall k :: RateLimited(respond(k))
    requires retryCount <= maxRetries
    ensures var e := MakeRequest(respond, retryCount, maxRetries, baseDelay, pause);
      e.attempts == maxRetries - retryCount + 1 &&
      Raised(e, maxRetries) == Err(Wrap(RateLimitMessage(maxRetries), maxRetries - retryCount + 1))
  {
    RequestAttempts(respond, retryCount, maxRetries, baseDelay, pause);
    var e := MakeRequest(respond, retryCount, maxRetries, baseDelay, pause);
    var last := retryCount + e.attempts - 1;
    if last > retryCount {
      assert RateLimited(respond(last - 1)) && last - 1 < maxRetries;
    }
    assert RateLimited(respond(last));
  }

  /** A first answer of 200 is returned as is after one pause. */
  lemma FirstAnswerOk<B>(respond: nat -> Reply<B>, retryCount: nat, maxRetries: int, baseDelay: nat, pause: nat)
    requires respond(retryCount).Reply? && respond(retryCount).status == 200
    ensures MakeRequest(respond, retryCount, maxRetries, baseDelay, pause) ==
      Exchange(Ok(respond(retryCount).body), 1, [pause])
  {
  }
}
