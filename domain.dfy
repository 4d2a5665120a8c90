/**
 * Shared types of the Go rewrite (internal/domain/domain.go): health-check
 * records, the two error types with their messages, and the path check.
 * `os.Stat` is a parameter: what it reports for the path.
 */
module Domain {
  import opened Results
  import opened Text

  datatype HealthStatus = StatusOK | StatusWarn | StatusError

  function StatusText(s: HealthStatus): string {
    match s
    case StatusOK => "OK"
    case StatusWarn => "WARN"
    case StatusError => "ERROR"
  }

  datatype HealthCheck = HealthCheck(name: string, status: HealthStatus, message: string)

  /** `ModInfo`: the version chosen for one mod. */
  datatype ModInfo = ModInfo(versionId: string, version: string, downloadUrl: string, filename: string, projectName: string)

  /** `ModUpdateResult`: the outcome of a bulk update. */
  datatype ModUpdateResult = ModUpdateResult(updated: seq<string>, failed: map<string, string>, skipped: seq<string>)

  /** What `os.Stat` reports for a path. */
  datatype PathStat = Absent | RegularFile | Dir

  /** `CheckPath`: a missing path warns, a file where a directory belongs is an error. */
  function CheckPath(name: string, stat: PathStat): (r: HealthCheck)
    ensures r.name == name
    ensures r.status == StatusOK <==> stat == Dir
    ensures r.status == StatusWarn <==> stat == Absent
    ensures r.status == StatusError <==> stat == RegularFile
  {
    match stat
    case Absent => HealthCheck(name, StatusWarn, "Does not exist")
    case RegularFile => HealthCheck(name, StatusError, "Not a directory")
    case Dir => HealthCheck(name, StatusOK, "OK")
  }

  /** `APIError`: a failed call to an external service. */
  datatype APIError = APIError(url: string, statusCode: int, message: string)

  /** `APIError.Error`: the status is shown in brackets when it is positive. */
  function APIErrorText(e: APIError): (r: string)
    ensures HasSuffix(r, " (url: " + e.url + ")")
    ensures HasPrefix(r, "API error")
    ensures e.statusCode <= 0 ==> r == "API error: " + e.message + " (url: " + e.url + ")"
    ensures e.statusCode > 0 ==> r == "API error [" + IntToString(e.statusCode) + "]: " + e.message + " (url: " + e.url + ")"
  {
    var tail := e.message + " (url: " + e.url + ")";
    var r := if e.statusCode > 0 then "API error [" + IntToString(e.statusCode) + "]: " + tail
      else "API error: " + tail;
    assert r == (if e.statusCode > 0 then "API error [" + IntToString(e.statusCode) + "]: " + e.message
      else "API error: " + e.message) + (" (url: " + e.url + ")");
    r
  }

  /** The status code can be read back from the bracket of a message that has one. */
  lemma APIErrorStatusReadable(e: APIError)
    requires e.statusCode > 0
    ensures var r := APIErrorText(e);
      var n := |IntToString(e.statusCode)|;
      11 + n <= |r| && r[..11] == "API error [" && r[11 + n] == ']' &&
      ParseInt(r[11..11 + n]) == Some(e.statusCode)
  {
    var digits := IntToString(e.statusCode);
    var r := APIErrorText(e);
    var rest := "]: " + e.message + " (url: " + e.url + ")";
    assert r == "API error [" + digits + rest;
    assert r[11..11 + |digits|] == digits;
    assert r[11 + |digits|] == rest[0];
    ParseIntOfIntToString(e.statusCode);
  }

  /** `IsRetryable`: server errors and rate limiting are transient. */
  predicate IsRetryable(e: APIError) {
    e.statusCode >= 500 || e.statusCode == 429
  }

  /** The cases domain_test.go lists. */
  lemma RetryableCases()
    ensures forall code :: code in {200, 400, 404} ==> !IsRetryable(APIError("", code, ""))
    ensures forall code :: code in {429, 500, 502, 503} ==> IsRetryable(APIError("", code, ""))
  {
  }

  /** `ServiceError`: an error with the service and, when present, the operation in front. */
  datatype ServiceError = ServiceError(service: string, op: string, err: string)

  function ServiceErrorText(e: ServiceError): (r: string)
    ensures HasPrefix(r, e.service)
    ensures HasSuffix(r, ": " + e.err)
    ensures e.op != "" ==> HasPrefix(r, e.service + "." + e.op + ": ")
  {
    if e.op != "" then
      var r := e.service + "." + e.op + ": " + e.err;
      assert r == e.service + ("." + e.op + ": " + e.err);
      assert r == (e.service + "." + e.op) + (": " + e.err);
      assert r == (e.service + "." + e.op + ": ") + e.err;
      r
    else
      var r := e.service + ": " + e.err;
      assert r == e.service + (": " + e.err);
      r
  }

  /** `Unwrap`: the wrapped error is the text after the context. */
  lemma ServiceErrorUnwrap(e: ServiceError)
    ensures var r := ServiceErrorText(e);
      var k := if e.op != "" then |e.service| + 1 + |e.op| + 2 else |e.service| + 2;
      k <= |r| && r[k..] == e.err
  {
  }
}
