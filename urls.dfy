/**
 * The path of a mod page URL, as the two URL parsers the project relies on
 * compute it, and the `<marker>([^/]+)` searches that take a project id out
 * of that path.
 *
 * Python: `urllib.parse.urlparse(url).path` as current CPython computes it
 * (leading controls and spaces stripped, tab, CR and LF deleted; then scheme,
 * `//netloc`, `#fragment`, `?query` and, for the schemes that take them,
 * `;params` are cut off).
 * Go: `url.Parse(url).Path` from `net/url` (the fragment first; control
 * bytes, bad escapes, bad ports and bad host characters are errors; the path
 * is percent-decoded; an opaque URL such as `mailto:x` has an empty path).
 * Strings are bytes on the Go side, so `%q` quoting is modelled for ASCII.
 */
module Urls {
  import opened Results
  import opened Text

  /** The index of the first character of `s` at or after `from` that is in `cs`, or |s|. */
  function FirstOf(s: string, cs: set<char>, from: nat): (r: nat)
    requires from <= |s|
    ensures from <= r <= |s|
    ensures forall k :: from <= k < r ==> s[k] !in cs
    ensures r < |s| ==> s[r] in cs
    decreases |s| - from
  {
    if from == |s| || s[from] in cs then from else FirstOf(s, cs, from + 1)
  }

  /** The text before the first `c` (all of it when there is none): `s.split(c, 1)[0]`. */
  function CutAt(s: string, c: char): (r: string)
    ensures c !in r
    ensures r <= s
    ensures |r| < |s| ==> s[|r|] == c
  {
    s[..FirstOf(s, {c}, 0)]
  }

  /** The first position of a character of `cs` is found after a prefix that has none. */
  lemma FirstOfAfter(a: string, b: string, cs: set<char>)
    requires forall k :: 0 <= k < |a| ==> a[k] !in cs
    ensures FirstOf(a + b, cs, 0) == |a| + FirstOf(b, cs, 0)
  {
    var s := a + b;
    var q := FirstOf(b, cs, 0);
    forall k | 0 <= k < |a| + q ensures s[k] !in cs {
      if k < |a| {
        assert s[k] == a[k];
      } else {
        assert s[k] == b[k - |a|];
      }
    }
    if q < |b| {
      assert s[|a| + q] == b[q];
    }
  }

  // ------------------------------------------------------------------ Python

  predicate IsAsciiLetter(c: char) {
    'a' <= c <= 'z' || 'A' <= c <= 'Z'
  }

  /** `urllib.parse.scheme_chars`. */
  predicate IsSchemeChar(c: char) {
    IsAsciiLetter(c) || IsDigit(c) || c == '+' || c == '-' || c == '.'
  }

  /** `urllib.parse.uses_params`: the schemes whose last path segment may carry `;params`. */
  const UsesParams: set<string> := {"", "ftp", "hdl", "prospero", "http", "imap", "https", "shttp",
                                     "rtsp", "rtsps", "rtspu", "sip", "sips", "mms", "sftp", "tel"}

  /** `_WHATWG_C0_CONTROL_OR_SPACE`: every character up to and including the space. */
  predicate IsC0OrSpace(c: char) {
    c <= ' '
  }

  /** `_UNSAFE_URL_BYTES_TO_REMOVE`: deleted wherever they occur. */
  const UnsafeUrlChars: set<char> := {'\t', '\r', '\n'}

  /** The message of the ValueError for a netloc with only one of '[' and ']'. */
  const InvalidIPv6 := "Invalid IPv6 URL"

  /** `url.lstrip(_WHATWG_C0_CONTROL_OR_SPACE)`. */
  function StripLeadingC0(s: string): (r: string)
    ensures |r| <= |s| && r == s[|s| - |r|..]
    ensures forall k :: 0 <= k < |s| - |r| ==> IsC0OrSpace(s[k])
    ensures r == [] || !IsC0OrSpace(r[0])
  {
    if s != [] && IsC0OrSpace(s[0]) then StripLeadingC0(s[1..]) else s
  }

  /** `url.replace(b, "")` for each of the unsafe characters, in order. */
  function RemoveUnsafe(s: string): (r: string)
    ensures |r| <= |s|
  {
    if s == [] then []
    else (if s[0] in UnsafeUrlChars then [] else [s[0]]) + RemoveUnsafe(s[1..])
  }

  /** What is left is every character of `s` except tab, CR and LF. */
  lemma {:induction false} RemoveUnsafeMembers(s: string)
    ensures forall c :: c in RemoveUnsafe(s) <==> c in s && c !in UnsafeUrlChars
  {
    if s != [] {
      RemoveUnsafeMembers(s[1..]);
      assert s == [s[0]] + s[1..];
    }
  }

  /**
   * The scheme (lower-cased) and the rest: a scheme is taken when the text before
   * the first ':' is non-empty, starts with an ASCII letter and is made of
   * scheme characters.
   */
  function PySplitScheme(url: string): (r: (string, string))
    ensures r.0 == [] ==> r.1 == url
    ensures |r.1| <= |url| && r.1 == url[|url| - |r.1|..]
  {
    var i := FirstOf(url, {':'}, 0);
    if 0 < i < |url| && IsAsciiLetter(url[0]) && forall k :: 0 <= k < i ==> IsSchemeChar(url[k])
    then (Lower(url[..i]), url[i + 1..])
    else ([], url)
  }

  /** `_splitparams`: cut at the first ';' after the last '/', or at the first ';' when there is no '/'. */
  function PySplitParams(url: string): (r: string)
    ensures r <= url
  {
    match LastIndex(url, "/")
    case Some(slash) =>
      var i := FirstOf(url, {';'}, slash);
      url[..i]
    case None => CutAt(url, ';')
  }

  /** The path out of what follows the netloc: cut at '#', at '?', then at the parameters when the scheme takes them. */
  function PyPathPart(scheme: string, s: string): (path: string)
    ensures path <= s
    ensures '#' !in path && '?' !in path
  {
    var noFragment := CutAt(s, '#');
    var noQuery := CutAt(noFragment, '?');
    if scheme in UsesParams && ';' in noQuery then PySplitParams(noQuery) else noQuery
  }

  /** What `urlsplit` splits: the URL without its leading controls and spaces, and without tab, CR and LF. */
  function PyClean(url: string): (r: string)
    ensures forall c :: c in r ==> c in url && c !in UnsafeUrlChars
  {
    var stripped := StripLeadingC0(url);
    SuffixMembers(url, stripped);
    RemoveUnsafeMembers(stripped);
    RemoveUnsafe(stripped)
  }

  /** Every element of a suffix is an element of the whole. */
  lemma SuffixMembers(s: string, t: string)
    requires |t| <= |s| && t == s[|s| - |t|..]
    ensures forall c :: c in t ==> c in s
  {
    forall c | c in t ensures c in s {
      var k :| 0 <= k < |t| && t[k] == c;
      assert s[|s| - |t| + k] == c;
    }
  }

  /** A prefix of a suffix of a suffix holds only characters of the whole. */
  lemma PathMembers(clean: string, rest: string, start: nat, path: string)
    requires |rest| <= |clean| && rest == clean[|clean| - |rest|..]
    requires start <= |rest| && path <= rest[start..]
    ensures forall c :: c in path ==> c in clean
  {
    forall c | c in path ensures c in clean {
      var k :| 0 <= k < |path| && path[k] == c;
      assert clean[|clean| - |rest| + start + k] == c;
    }
  }

  /** The path of a cleaned URL; a netloc holding only one of '[' and ']' is the ValueError. */
  function PySplitPath(clean: string): (r: Result<string, string>)
    ensures r.Ok? ==> '#' !in r.value && '?' !in r.value
    ensures r.Ok? ==> forall c :: c in r.value ==> c in clean
    ensures r.Err? ==> r.error == InvalidIPv6
  {
    var (scheme, rest) := PySplitScheme(clean);
    var start := if |rest| >= 2 && rest[..2] == "//" then FirstOf(rest, {'/', '?', '#'}, 2) else 0;
    var netloc := if start == 0 then [] else rest[2..start];
    if ('[' in netloc) != (']' in netloc) then Err(InvalidIPv6)
    else
      var path := PyPathPart(scheme, rest[start..]);
      PathMembers(clean, rest, start, path);
      Ok(path)
  }

  /**
   * `urlparse(url).path`: leading controls and spaces are stripped and tab,
   * CR and LF deleted before the URL is split; a netloc holding only one of
   * '[' and ']' is the ValueError "Invalid IPv6 URL".
   */
  function PyUrlPath(url: string): (r: Result<string, string>)
    ensures r.Ok? ==> '#' !in r.value && '?' !in r.value
    ensures r.Ok? ==> forall c :: c in r.value ==> c in url && c !in UnsafeUrlChars
    ensures r.Err? ==> r.error == InvalidIPv6
  {
    PySplitPath(PyClean(url))
  }

  // ---------------------------------------------------------------------- Go

  /** What `stringContainsCTLByte` looks for: a byte below the space, or DEL. */
  predicate IsCtl(c: char) {
    c < ' ' || c == '\U{7F}'
  }

  predicate HasCtl(s: string) {
    exists k :: 0 <= k < |s| && IsCtl(s[k])
  }

  predicate IsHex(c: char) {
    IsDigit(c) || 'a' <= c <= 'f' || 'A' <= c <= 'F'
  }

  function HexValue(c: char): (v: nat)
    requires IsHex(c)
    ensures v < 16
  {
    if IsDigit(c) then c as int - '0' as int
    else if 'a' <= c <= 'f' then c as int - 'a' as int + 10
    else c as int - 'A' as int + 10
  }

  const LowerHexDigits := "0123456789abcdef"

  /** One byte as `strconv.Quote` writes it inside the quotes. */
  function QuoteChar(c: char): string {
    if c == '"' then "\\\""
    else if c == '\\' then "\\\\"
    else if ' ' <= c < '\U{7F}' then [c]
    else if c == '\U{7}' then "\\a"
    else if c == '\U{8}' then "\\b"
    else if c == '\U{C}' then "\\f"
    else if c == '\n' then "\\n"
    else if c == '\r' then "\\r"
    else if c == '\t' then "\\t"
    else if c == '\U{B}' then "\\v"
    else if c <= '\U{7F}' then "\\x" + [LowerHexDigits[c as int / 16], LowerHexDigits[c as int % 16]]
    else [c]
  }

  function QuoteBody(s: string): string {
    if s == [] then [] else QuoteChar(s[0]) + QuoteBody(s[1..])
  }

  /** `strconv.Quote`, the `%q` verb. */
  function Quote(s: string): string {
    "\"" + QuoteBody(s) + "\""
  }

  /** The error `url.Parse` returns: `%s %q: %s` of the operation, the URL and the cause. */
  function GoParseError(u: string, cause: string): string {
    "parse " + Quote(u) + ": " + cause
  }

  const CtlError := "net/url: invalid control character in URL"

  /** The characters `unescape` lets through unescaped in a host name (`shouldEscape` in host mode). */
  predicate HostChar(c: char) {
    IsAsciiLetter(c) || IsDigit(c) || c in "-_.~!$&'()*+,;=:[]<>\""
  }

  /** `EscapeError.Error()`. */
  function EscapeError(s: string): string {
    "invalid URL escape " + Quote(s)
  }

  /** `InvalidHostError.Error()`. */
  function InvalidHostError(c: char): string {
    "invalid character " + Quote([c]) + " in host name"
  }

  /** Every '%' starts an escape: two hexadecimal digits follow it. */
  predicate WellEscaped(s: string) {
    forall i :: 0 <= i < |s| && s[i] == '%' ==> i + 2 < |s| && IsHex(s[i + 1]) && IsHex(s[i + 2])
  }

  /**
   * `unescape(s, mode)`, in host mode or in one of the modes that only check
   * escapes (path, user information, fragment): each `%XX` becomes the byte
   * it names and any other character stays. The first bad escape is an
   * error; in a host name so is an escape of an ASCII byte other than `%25`,
   * and an ASCII character that must be escaped.
   */
  function Unescape(s: string, host: bool): (r: Result<string, string>)
    ensures r.Ok? ==> |r.value| <= |s|
  {
    if s == [] then Ok([])
    else if s[0] == '%' then
      if |s| < 3 || !IsHex(s[1]) || !IsHex(s[2]) then
        Err(EscapeError(if |s| < 3 then s else s[..3]))
      else if host && HexValue(s[1]) < 8 && s[..3] != "%25" then
        Err(EscapeError(s[..3]))
      else
        match Unescape(s[3..], host)
        case Err(e) => Err(e)
        case Ok(rest) => Ok([(HexValue(s[1]) * 16 + HexValue(s[2])) as char] + rest)
    else if host && s[0] < '\U{80}' && !HostChar(s[0]) then Err(InvalidHostError(s[0]))
    else
      match Unescape(s[1..], host)
      case Err(e) => Err(e)
      case Ok(rest) => Ok([s[0]] + rest)
  }

  /** Outside a host name, `unescape` succeeds exactly when every '%' starts an escape. */
  lemma {:induction false} UnescapeChecksEscapes(s: string)
    ensures Unescape(s, false).Ok? <==> WellEscaped(s)
  {
    if s != [] {
      if s[0] == '%' {
        if |s| >= 3 && IsHex(s[1]) && IsHex(s[2]) {
          WellEscapedSkip(s, 3);
          UnescapeChecksEscapes(s[3..]);
        }
      } else {
        WellEscapedSkip(s, 1);
        UnescapeChecksEscapes(s[1..]);
      }
    }
  }

  /** Past a plain character or a whole escape, the rest is well escaped exactly when the whole is. */
  lemma WellEscapedSkip(s: string, n: nat)
    requires n <= |s| && (n == 1 || n == 3) && |s| > 0
    requires n == 1 ==> s[0] != '%'
    requires n == 3 ==> s[0] == '%' && IsHex(s[1]) && IsHex(s[2])
    ensures WellEscaped(s) <==> WellEscaped(s[n..])
  {
    var t := s[n..];
    if WellEscaped(t) {
      forall i | 0 <= i < |s| && s[i] == '%' ensures i + 2 < |s| && IsHex(s[i + 1]) && IsHex(s[i + 2]) {
        if i >= n {
          assert t[i - n] == '%';
        } else {
          assert i == 0;
        }
      }
    }
    if WellEscaped(s) {
      forall i | 0 <= i < |t| && t[i] == '%' ensures i + 2 < |t| && IsHex(t[i + 1]) && IsHex(t[i + 2]) {
        assert s[i + n] == '%';
      }
    }
  }

  /** The last position of `c` in `s`. */
  function LastOf(s: string, c: char): (r: Option<nat>)
    ensures r.Some? ==> r.value < |s| && s[r.value] == c && c !in s[r.value + 1..]
    ensures r.None? ==> c !in s
  {
    if s == [] then None
    else if s[|s| - 1] == c then Some(|s| - 1)
    else
      var r := LastOf(s[..|s| - 1], c);
      assert s == s[..|s| - 1] + [s[|s| - 1]];
      assert r.Some? ==> s[r.value + 1..] == s[..|s| - 1][r.value + 1..] + [s[|s| - 1]];
      r
  }

  /** `validOptionalPort`: empty, or ':' and digits. */
  predicate ValidOptionalPort(p: string) {
    p == [] || (p[0] == ':' && forall k :: 1 <= k < |p| ==> IsDigit(p[k]))
  }

  function InvalidPort(colonPort: string): string {
    "invalid port " + Quote(colonPort) + " after host"
  }

  /**
   * `parseHost`: a bracketed host needs its ']' and only a port after it;
   * otherwise whatever follows the last ':' must be a port; then the name is
   * unescaped in host mode.
   */
  function ParseHost(host: string): (r: Result<string, string>)
    ensures ':' !in host && '[' !in host && '%' !in host && (forall c :: c in host ==> HostChar(c)) ==> r == Ok(host)
  {
    if HasPrefix(host, "[") then
      assert host[0] == '[' && host[0] in host;
      match LastOf(host, ']')
      case None => Err("missing ']' in host")
      case Some(i) =>
        if !ValidOptionalPort(host[i + 1..]) then Err(InvalidPort(host[i + 1..]))
        else Unescape(host, true)
    else
      match LastOf(host, ':')
      case Some(i) =>
        if !ValidOptionalPort(host[i..]) then Err(InvalidPort(host[i..]))
        else Unescape(host, true)
      case None =>
        UnescapeAbsent(host, true);
        Unescape(host, true)
  }

  /** `validUserinfo`: ASCII letters, digits and ``-._:~!$&'()*+,;=%@``. */
  predicate ValidUserinfo(s: string) {
    forall c :: c in s ==> IsAsciiLetter(c) || IsDigit(c) || c in "-._:~!$&'()*+,;=%@"
  }

  /** `parseAuthority`: the host after the last '@' first, then the user information before it. */
  function ParseAuthority(authority: string): (r: Result<(), string>)
    ensures '@' !in authority ==> r == (match ParseHost(authority) case Ok(_) => Ok(()) case Err(e) => Err(e))
  {
    match LastOf(authority, '@')
    case None => (match ParseHost(authority) case Ok(_) => Ok(()) case Err(e) => Err(e))
    case Some(i) =>
      match ParseHost(authority[i + 1..])
      case Err(e) => Err(e)
      case Ok(_) =>
        var userinfo := authority[..i];
        if !ValidUserinfo(userinfo) then Err("net/url: invalid userinfo")
        else
          var name := CutAt(userinfo, ':');
          match Unescape(name, false)
          case Err(e) => Err(e)
          case Ok(_) =>
            if |name| == |userinfo| then Ok(())
            else match Unescape(userinfo[|name| + 1..], false)
              case Err(e) => Err(e)
              case Ok(_) => Ok(())
  }

  datatype SchemeScan = NoScheme | SchemeEndsAt(colon: nat) | MissingScheme

  /** `getScheme` of `net/url`: letters, then letters, digits or `+-.`, then ':'. */
  function GoSchemeScan(u: string, i: nat): (r: SchemeScan)
    requires i <= |u|
    ensures r.SchemeEndsAt? ==> 0 < r.colon < |u| && u[r.colon] == ':'
    ensures r.SchemeEndsAt? ==> forall k :: i <= k < r.colon ==> u[k] != ':'
    ensures r.MissingScheme? ==> i == 0 && |u| > 0 && u[0] == ':'
    decreases |u| - i
  {
    if i == |u| then NoScheme
    else if IsAsciiLetter(u[i]) then GoSchemeScan(u, i + 1)
    else if IsDigit(u[i]) || u[i] == '+' || u[i] == '-' || u[i] == '.' then
      (if i == 0 then NoScheme else GoSchemeScan(u, i + 1))
    else if u[i] == ':' then (if i == 0 then MissingScheme else SchemeEndsAt(i))
    else NoScheme
  }

  /** `url.Parse(raw).Path`, or the parse error. */
  function GoUrlPath(raw: string): (r: Result<string, string>)
    ensures HasCtl(CutAt(raw, '#')) ==> r == Err(GoParseError(CutAt(raw, '#'), CtlError))
    ensures r.Ok? ==> !HasCtl(CutAt(raw, '#')) && |r.value| <= |raw|
  {
    var u := CutAt(raw, '#');
    var fragment := if |u| < |raw| then raw[|u| + 1..] else [];
    match GoParse(u)
    case Err(e) => Err(GoParseError(u, e))
    case Ok(path) =>
      if fragment == [] then Ok(path)
      else match Unescape(fragment, false)
        case Err(e) => Err(GoParseError(raw, e))
        case Ok(_) => Ok(path)
  }

  /** `parse(u, false)`: the path, or the cause of the error. */
  function GoParse(u: string): (r: Result<string, string>)
    ensures HasCtl(u) ==> r == Err(CtlError)
    ensures r.Ok? ==> |r.value| <= |u|
  {
    if HasCtl(u) then Err(CtlError)
    else if u == "*" then Ok("*")
    else
      match GoSchemeScan(u, 0)
      case MissingScheme => Err("missing protocol scheme")
      case NoScheme => GoPathAfterScheme([], u)
      case SchemeEndsAt(colon) => GoPathAfterScheme(u[..colon], u[colon + 1..])
  }

  /** What `parse` does once the scheme is split off: query, opaque form, authority, path. */
  function GoPathAfterScheme(scheme: string, rest: string): (r: Result<string, string>)
    ensures r.Ok? ==> |r.value| <= |rest|
  {
    var rest' := CutAt(rest, '?');
    if !HasPrefix(rest', "/") && scheme != [] then Ok([])
    else if !HasPrefix(rest', "/") && ':' in CutAt(rest', '/') then
      Err("first path segment in URL cannot contain colon")
    else if (scheme != [] || !HasPrefix(rest', "///")) && HasPrefix(rest', "//") then
      var authority := rest'[2..];
      var slash := FirstOf(authority, {'/'}, 0);
      match ParseAuthority(authority[..slash])
      case Err(e) => Err(e)
      case Ok(_) => Unescape(authority[slash..], false)
    else Unescape(rest', false)
  }

  // ------------------------------------------------------- the id searches

  /** The maximal run of characters other than '/' that starts at `i`. */
  function SegmentFrom(s: string, i: nat): (r: string)
    requires i <= |s|
    ensures '/' !in r
    ensures i + |r| <= |s| && r == s[i..i + |r|]
    ensures i + |r| < |s| ==> s[i + |r|] == '/'
  {
    s[i..FirstOf(s, {'/'}, i)]
  }

  /** `marker([^/]+)` matches at `p`: the marker, then at least one character other than '/'. */
  predicate GroupAt(s: string, marker: string, p: int) {
    OccursAt(s, marker, p) && p + |marker| < |s| && s[p + |marker|] != '/'
  }

  /** The leftmost position at or after `from` where `marker([^/]+)` matches. */
  function FirstGroup(s: string, marker: string, from: nat): (r: Option<nat>)
    ensures r.Some? ==> from <= r.value && GroupAt(s, marker, r.value)
    ensures r.Some? ==> forall q :: from <= q < r.value ==> !GroupAt(s, marker, q)
    ensures r.None? ==> forall q :: from <= q ==> !GroupAt(s, marker, q)
    decreases |s| - from
  {
    if from + |marker| >= |s| then None
    else if GroupAt(s, marker, from) then Some(from)
    else FirstGroup(s, marker, from + 1)
  }

  /**
   * Python's `re.search(marker + '([^/]+)', s).group(1)` and Go's
   * `FindStringSubmatch(s)[1]`: both take the leftmost match, and the greedy
   * group runs to the next '/' or the end.
   */
  function SearchGroup(s: string, marker: string): (r: Option<string>)
    ensures r.None? <==> forall q :: !GroupAt(s, marker, q)
    ensures r.Some? ==> |r.value| > 0 && '/' !in r.value
    ensures r.Some? ==> exists p :: GroupAt(s, marker, p) && r.value == SegmentFrom(s, p + |marker|)
  {
    match FirstGroup(s, marker, 0)
    case None => None
    case Some(p) =>
      var g := SegmentFrom(s, p + |marker|);
      assert g[0] == s[p + |marker|];
      Some(g)
  }

  /** FirstOf is pinned down by its three properties. */
  lemma {:induction false} FirstOfIs(s: string, cs: set<char>, from: nat, r: nat)
    requires from <= r <= |s|
    requires forall k :: from <= k < r ==> s[k] !in cs
    requires r < |s| ==> s[r] in cs
    ensures FirstOf(s, cs, from) == r
    decreases r - from
  {
    if from < r {
      FirstOfIs(s, cs, from + 1, r);
    }
  }

  /** A match that ends inside `t` is a match in `t`. */
  lemma GroupAtExtend(t: string, b: string, marker: string, q: int)
    requires GroupAt(t + b, marker, q) && q + |marker| < |t|
    ensures GroupAt(t, marker, q)
  {
    var s := t + b;
    assert s[q..q + |marker|] == t[q..q + |marker|];
    assert s[q + |marker|] == t[q + |marker|];
  }

  /** FirstGroup is pinned down by its properties. */
  lemma {:induction false} FirstGroupIs(s: string, marker: string, from: nat, p: nat)
    requires from <= p && GroupAt(s, marker, p)
    requires forall q :: from <= q < p ==> !GroupAt(s, marker, q)
    ensures FirstGroup(s, marker, from) == Some(p)
    decreases p - from
  {
    if from < p {
      FirstGroupIs(s, marker, from + 1, p);
    }
  }

  /** A marker followed by a segment and then only '/'-led text yields that segment. */
  lemma SearchGroupFinds(a: string, marker: string, id: string, b: string)
    requires |marker| > 0 && |id| > 0 && '/' !in id
    requires b == [] || b[0] == '/'
    requires forall q :: 0 <= q < |a| ==> !GroupAt(a + marker + id, marker, q)
    ensures SearchGroup(a + marker + id + b, marker) == Some(id)
  {
    var t := a + marker + id;
    var s := t + b;
    var p := |a|;
    var start := p + |marker|;
    assert s[p..start] == marker;
    assert s[start] == id[0];
    forall q | 0 <= q < p ensures !GroupAt(s, marker, q) {
      if GroupAt(s, marker, q) {
        GroupAtExtend(t, b, marker, q);
      }
    }
    FirstGroupIs(s, marker, 0, p);
    forall k | start <= k < start + |id| ensures s[k] !in {'/'} {
      assert s[k] == id[k - start];
    }
    if start + |id| < |s| {
      assert s[start + |id|] == b[0];
    }
    FirstOfIs(s, {'/'}, start, start + |id|);
    assert s[start..start + |id|] == id;
  }

  // ----------------------------------------------------- a typical mod URL

  /** `scheme://host/path` splits into the scheme and `//host/path`. */
  lemma WebUrlScheme(scheme: string, rest: string)
    requires |scheme| > 0 && forall k :: 0 <= k < |scheme| ==> IsAsciiLetter(scheme[k])
    ensures FirstOf(scheme + ":" + rest, {':'}, 0) == |scheme|
    ensures (scheme + ":" + rest)[..|scheme|] == scheme && (scheme + ":" + rest)[|scheme| + 1..] == rest
  {
    var url := scheme + ":" + rest;
    assert url == scheme + ([':'] + rest);
    FirstOfAfter(scheme, [':'] + rest, {':'});
  }

  /** After `//`, the host runs up to the path. */
  lemma HostEnds(host: string, path: string, cs: set<char>)
    requires forall k :: 0 <= k < |host| ==> host[k] !in cs
    requires |path| > 0 && path[0] in cs
    ensures FirstOf("//" + host + path, cs, 2) == 2 + |host|
  {
    var rest := "//" + host + path;
    forall k | 2 <= k < 2 + |host| ensures rest[k] !in cs {
      assert rest[k] == host[k - 2];
    }
    assert rest[2 + |host|] == path[0];
  }

  /** Cutting at a character that does not occur keeps the whole text. */
  lemma CutAtAbsent(s: string, c: char)
    requires c !in s
    ensures CutAt(s, c) == s
  {
    assert FirstOf(s, {c}, 0) == |s|;
  }

  /** A run of letters ended by ':' is the scheme for `urlparse`. */
  lemma PySchemeSplits(scheme: string, rest: string)
    requires |scheme| > 0 && forall k :: 0 <= k < |scheme| ==> IsAsciiLetter(scheme[k])
    ensures PySplitScheme(scheme + ":" + rest) == (Lower(scheme), rest)
  {
    var url := scheme + ":" + rest;
    WebUrlScheme(scheme, rest);
    assert url[0] == scheme[0];
    forall k | 0 <= k < |scheme| ensures IsSchemeChar(url[k]) {
      assert url[k] == scheme[k];
    }
  }

  lemma {:induction false} RemoveUnsafeAbsent(s: string)
    requires forall c :: c in s ==> c !in UnsafeUrlChars
    ensures RemoveUnsafe(s) == s
  {
    if s != [] {
      assert s[0] in s;
      RemoveUnsafeAbsent(s[1..]);
    }
  }

  lemma {:induction false} RemoveUnsafeAppend(a: string, b: string)
    ensures RemoveUnsafe(a + b) == RemoveUnsafe(a) + RemoveUnsafe(b)
  {
    if a != [] {
      var head := if a[0] in UnsafeUrlChars then [] else [a[0]];
      assert (a + b)[0] == a[0];
      assert (a + b)[1..] == a[1..] + b;
      RemoveUnsafeAppend(a[1..], b);
      calc {
        RemoveUnsafe(a + b);
        head + RemoveUnsafe(a[1..] + b);
        head + (RemoveUnsafe(a[1..]) + RemoveUnsafe(b));
        (head + RemoveUnsafe(a[1..])) + RemoveUnsafe(b);
        RemoveUnsafe(a) + RemoveUnsafe(b);
      }
    } else {
      assert a + b == b;
    }
  }

  /** A run of controls and spaces in front is stripped with the rest of the leading run. */
  lemma {:induction false} StripThroughC0(a: string, b: string)
    requires forall k :: 0 <= k < |a| ==> IsC0OrSpace(a[k])
    ensures StripLeadingC0(a + b) == StripLeadingC0(b)
  {
    if a != [] {
      assert (a + b)[0] == a[0];
      assert (a + b)[1..] == a[1..] + b;
      StripThroughC0(a[1..], b);
    } else {
      assert a + b == b;
    }
  }

  /** When `a` holds a character that is no control or space, the strip stops inside `a`. */
  lemma {:induction false} StripStopsInside(a: string, b: string, j: nat)
    requires j < |a| && !IsC0OrSpace(a[j])
    ensures StripLeadingC0(a + b) == StripLeadingC0(a) + b
  {
    assert (a + b)[0] == a[0];
    if IsC0OrSpace(a[0]) {
      assert (a + b)[1..] == a[1..] + b;
      StripStopsInside(a[1..], b, j - 1);
    }
  }

  /** Deleting the unsafe characters loses one that stands between two parts. */
  lemma RemoveUnsafeSkips(s: string, c: char, b: string)
    requires c in UnsafeUrlChars
    ensures RemoveUnsafe(s + [c] + b) == RemoveUnsafe(s + b)
  {
    RemoveUnsafeAppend(s + [c], b);
    RemoveUnsafeAppend(s, [c]);
    RemoveUnsafeAppend(s, b);
    assert RemoveUnsafe([c]) == [] by {
      assert [c][1..] == [];
    }
    assert RemoveUnsafe(s) + [] == RemoveUnsafe(s);
  }

  /** `urlparse` ignores a tab, CR or LF wherever it stands in the URL. */
  lemma UnsafeCharIgnored(a: string, c: char, b: string)
    requires c in UnsafeUrlChars
    ensures PyClean(a + [c] + b) == PyClean(a + b)
    ensures PyUrlPath(a + [c] + b) == PyUrlPath(a + b)
  {
    UnsafeCharCleaned(a, c, b);
  }

  /** Cleaning drops a tab, CR or LF wherever it stands. */
  lemma UnsafeCharCleaned(a: string, c: char, b: string)
    requires c in UnsafeUrlChars
    ensures RemoveUnsafe(StripLeadingC0(a + [c] + b)) == RemoveUnsafe(StripLeadingC0(a + b))
  {
    if forall k :: 0 <= k < |a| ==> IsC0OrSpace(a[k]) {
      UnsafeInLeadingRun(a, c, b);
    } else {
      var j :| 0 <= j < |a| && !IsC0OrSpace(a[j]);
      UnsafeAfterLeadingRun(a, c, b, j);
    }
  }

  /** A tab, CR or LF inside the leading run is stripped with it. */
  lemma UnsafeInLeadingRun(a: string, c: char, b: string)
    requires c in UnsafeUrlChars
    requires forall k :: 0 <= k < |a| ==> IsC0OrSpace(a[k])
    ensures StripLeadingC0(a + [c] + b) == StripLeadingC0(a + b)
  {
    assert IsC0OrSpace(c) by {
      assert c == '\t' || c == '\r' || c == '\n';
    }
    assert StripLeadingC0([c] + b) == StripLeadingC0(b) by {
      assert ([c] + b)[0] == c && ([c] + b)[1..] == b;
    }
    assert a + [c] + b == a + ([c] + b);
    StripThroughC0(a, [c] + b);
    StripThroughC0(a, b);
  }

  /** A tab, CR or LF after the leading run is deleted. */
  lemma UnsafeAfterLeadingRun(a: string, c: char, b: string, j: nat)
    requires c in UnsafeUrlChars
    requires j < |a| && !IsC0OrSpace(a[j])
    ensures RemoveUnsafe(StripLeadingC0(a + [c] + b)) == RemoveUnsafe(StripLeadingC0(a + b))
  {
    var s := StripLeadingC0(a);
    calc {
      RemoveUnsafe(StripLeadingC0(a + [c] + b));
      { assert a + [c] + b == a + ([c] + b);
        StripStopsInside(a, [c] + b, j); }
      RemoveUnsafe(s + ([c] + b));
      { assert s + ([c] + b) == s + [c] + b;
        RemoveUnsafeSkips(s, c, b); }
      RemoveUnsafe(s + b);
      { StripStopsInside(a, b, j); }
      RemoveUnsafe(StripLeadingC0(a + b));
    }
  }

  /** The text of `scheme://host/path` with no tab, CR or LF is what `urlsplit` splits. */
  lemma PyCleanUrl(scheme: string, host: string, path: string)
    requires |scheme| > 0 && forall k :: 0 <= k < |scheme| ==> IsAsciiLetter(scheme[k])
    requires forall c :: c in host + path ==> c !in UnsafeUrlChars
    ensures PyClean(scheme + "://" + host + path) == scheme + "://" + host + path
  {
    var url := scheme + "://" + host + path;
    assert url[0] == scheme[0];
    forall c | c in url ensures c !in UnsafeUrlChars {
      var k :| 0 <= k < |url| && url[k] == c;
      if k < |scheme| { assert url[k] == scheme[k]; }
      else if k >= |scheme| + 3 { assert url[k] == (host + path)[k - |scheme| - 3]; }
    }
    RemoveUnsafeAbsent(url);
  }

  /** Without '#', '?' and ';' the path part is all of what follows the netloc. */
  lemma PyPathPartPlain(scheme: string, s: string)
    requires '#' !in s && '?' !in s && ';' !in s
    ensures PyPathPart(scheme, s) == s
  {
    CutAtAbsent(s, '#');
    CutAtAbsent(s, '?');
  }

  /** `scheme://host/path`, once cleaned, splits into the netloc `host` and the path. */
  lemma PySplitWeb(scheme: string, host: string, path: string)
    requires |scheme| > 0 && forall k :: 0 <= k < |scheme| ==> IsAsciiLetter(scheme[k])
    requires forall k :: 0 <= k < |host| ==> host[k] !in {'/', '?', '#'}
    requires |path| > 0 && path[0] == '/'
    requires '?' !in path && '#' !in path && ';' !in path
    ensures PySplitPath(scheme + "://" + host + path) ==
      if ('[' in host) != (']' in host) then Err(InvalidIPv6) else Ok(path)
  {
    var rest := "//" + host + path;
    assert scheme + "://" + host + path == scheme + ":" + rest;
    PySchemeSplits(scheme, rest);
    assert |rest| >= 2 && rest[..2] == "//";
    HostEnds(host, path, {'/', '?', '#'});
    assert rest[2..2 + |host|] == host;
    assert rest[2 + |host|..] == path;
    PyPathPartPlain(Lower(scheme), path);
  }

  /** Such a URL is split as it is written. */
  lemma PyUrlSplitsAsIs(scheme: string, host: string, path: string)
    requires |scheme| > 0 && forall k :: 0 <= k < |scheme| ==> IsAsciiLetter(scheme[k])
    requires forall c :: c in host + path ==> c !in UnsafeUrlChars
    ensures PyUrlPath(scheme + "://" + host + path) == PySplitPath(scheme + "://" + host + path)
  {
    PyCleanUrl(scheme, host, path);
  }

  /**
   * `urlparse("scheme://host/path").path` is the path, unless the host holds
   * only one of '[' and ']', which is the ValueError.
   */
  lemma PyWebUrlPath(scheme: string, host: string, path: string)
    requires |scheme| > 0 && forall k :: 0 <= k < |scheme| ==> IsAsciiLetter(scheme[k])
    requires forall k :: 0 <= k < |host| ==> host[k] !in {'/', '?', '#'}
    requires |path| > 0 && path[0] == '/'
    requires '?' !in path && '#' !in path && ';' !in path
    requires forall c :: c in host + path ==> c !in UnsafeUrlChars
    ensures PyUrlPath(scheme + "://" + host + path) ==
      if ('[' in host) != (']' in host) then Err(InvalidIPv6) else Ok(path)
  {
    PyUrlSplitsAsIs(scheme, host, path);
    PySplitWeb(scheme, host, path);
  }

  /** Without '%', `unescape` changes nothing; in a host every character must also be allowed there. */
  lemma {:induction false} UnescapeAbsent(s: string, host: bool)
    ensures '%' !in s && (host ==> forall c :: c in s ==> HostChar(c)) ==> Unescape(s, host) == Ok(s)
  {
    if s != [] && '%' !in s && (host ==> forall c :: c in s ==> HostChar(c)) {
      assert s[0] in s;
      assert forall c :: c in s[1..] ==> c in s;
      UnescapeAbsent(s[1..], host);
      assert [s[0]] + s[1..] == s;
    }
  }

  /** A leading part without '%' is copied in front of what the rest unescapes to. */
  lemma {:induction false} UnescapePrefix(a: string, t: string)
    requires '%' !in a
    ensures Unescape(a + t, false) == match Unescape(t, false) case Ok(r) => Ok(a + r) case Err(e) => Err(e)
  {
    if a == [] {
      assert a + t == t;
      match Unescape(t, false) {
        case Ok(r) => assert a + r == r;
        case Err(e) =>
      }
    } else {
      assert (a + t)[0] == a[0] && a[0] in a;
      assert (a + t)[1..] == a[1..] + t;
      assert '%' !in a[1..] by {
        assert forall c :: c in a[1..] ==> c in a;
      }
      UnescapePrefix(a[1..], t);
      match Unescape(t, false) {
        case Ok(r) => assert [a[0]] + (a[1..] + r) == a + r;
        case Err(e) =>
      }
    }
  }

  /** An escaped '/' in a path is decoded to a real one. */
  lemma EscapedSlashDecoded(a: string, b: string)
    requires '%' !in a && '%' !in b
    ensures Unescape(a + "%2F" + b, false) == Ok(a + "/" + b)
  {
    var t := "%2F" + b;
    assert t[0] == '%' && t[1] == '2' && t[2] == 'F' && t[3..] == b;
    UnescapeAbsent(b, false);
    assert HexValue('2') * 16 + HexValue('F') == 47;
    assert Unescape(t, false) == Ok("/" + b);
    UnescapePrefix(a, t);
    assert a + "%2F" + b == a + t;
    assert a + ("/" + b) == a + "/" + b;
  }

  /** A '%' not followed by two hexadecimal digits is an escape error. */
  lemma BadEscapeRejected(a: string, b: string)
    requires |b| < 2 || !IsHex(b[0]) || !IsHex(b[1])
    ensures Unescape(a + "%" + b, false).Err?
  {
    var s := a + "%" + b;
    assert s[|a|] == '%';
    UnescapeChecksEscapes(s);
    if |a| + 2 < |s| {
      assert s[|a| + 1] == b[0] && s[|a| + 2] == b[1];
    }
  }

  /** A host name of allowed characters without ':', '[', '@' or '%' parses as it is. */
  lemma PlainHostAuthority(host: string)
    requires forall c :: c in host ==> HostChar(c) && c != ':' && c != '['
    ensures ParseAuthority(host) == Ok(())
  {
    assert '@' !in host && '%' !in host && ':' !in host && '[' !in host;
  }

  /** `url.Parse("scheme://host/path").Path` is the decoded path, or the path's escape error. */
  lemma GoWebUrl(scheme: string, host: string, path: string)
    requires |scheme| > 0 && forall k :: 0 <= k < |scheme| ==> IsAsciiLetter(scheme[k])
    requires forall c :: c in host ==> HostChar(c) && c != ':' && c != '['
    requires |path| > 0 && path[0] == '/'
    requires '?' !in path && '#' !in path && !HasCtl(path)
    ensures GoUrlPath(scheme + "://" + host + path) ==
      match Unescape(path, false) case Ok(p) => Ok(p) case Err(e) => Err(GoParseError(scheme + "://" + host + path, e))
  {
    GoWebUrlSplits(scheme, host, path);
    GoAuthorityPath(scheme, host, path);
  }

  /** `scheme://host/path` is split at its scheme. */
  lemma GoWebUrlSplits(scheme: string, host: string, path: string)
    requires |scheme| > 0 && forall k :: 0 <= k < |scheme| ==> IsAsciiLetter(scheme[k])
    requires forall c :: c in host ==> HostChar(c)
    requires '#' !in path && !HasCtl(path)
    ensures GoUrlPath(scheme + "://" + host + path) ==
      match GoPathAfterScheme(scheme, "//" + host + path)
      case Ok(p) => Ok(p)
      case Err(e) => Err(GoParseError(scheme + "://" + host + path, e))
  {
    var rest := "//" + host + path;
    assert scheme + "://" + host + path == scheme + ":" + rest;
    WebUrlPlain(scheme, host, path);
    GoSchemeSplits(scheme, rest);
  }

  /** `scheme://host/path` has neither a fragment nor a control byte. */
  lemma WebUrlPlain(scheme: string, host: string, path: string)
    requires forall k :: 0 <= k < |scheme| ==> IsAsciiLetter(scheme[k])
    requires forall c :: c in host ==> HostChar(c)
    requires '#' !in path && !HasCtl(path)
    ensures '#' !in scheme + "://" + host + path && !HasCtl(scheme + "://" + host + path)
  {
    var url := scheme + "://" + host + path;
    forall k | 0 <= k < |url| ensures url[k] != '#' && !IsCtl(url[k]) {
      if k < |scheme| {
        assert url[k] == scheme[k];
      } else if k < |scheme| + 3 {
      } else if k < |scheme| + 3 + |host| {
        assert url[k] == host[k - |scheme| - 3];
        assert url[k] in host;
      } else {
        assert url[k] == path[k - |scheme| - 3 - |host|];
      }
    }
  }

  /** For a path without escapes that is the path itself. */
  lemma GoWebUrlPath(scheme: string, host: string, path: string)
    requires |scheme| > 0 && forall k :: 0 <= k < |scheme| ==> IsAsciiLetter(scheme[k])
    requires forall c :: c in host ==> HostChar(c) && c != ':' && c != '['
    requires |path| > 0 && path[0] == '/'
    requires '?' !in path && '#' !in path && '%' !in path && !HasCtl(path)
    ensures GoUrlPath(scheme + "://" + host + path) == Ok(path)
  {
    GoWebUrl(scheme, host, path);
    UnescapeAbsent(path, false);
  }

  /** With no fragment and no control byte, `url.Parse` splits a run of letters ended by ':' off as the scheme. */
  lemma GoSchemeSplits(scheme: string, rest: string)
    requires |scheme| > 0 && forall k :: 0 <= k < |scheme| ==> IsAsciiLetter(scheme[k])
    requires '#' !in scheme + ":" + rest && !HasCtl(scheme + ":" + rest)
    ensures GoUrlPath(scheme + ":" + rest) ==
      match GoPathAfterScheme(scheme, rest) case Ok(p) => Ok(p) case Err(e) => Err(GoParseError(scheme + ":" + rest, e))
  {
    var url := scheme + ":" + rest;
    WebUrlScheme(scheme, rest);
    CutAtAbsent(url, '#');
    assert url != "*" by {
      assert url[|scheme|] == ':';
    }
    forall k | 0 <= k < |scheme| ensures IsAsciiLetter(url[k]) {
      assert url[k] == scheme[k];
    }
    GoSchemeFinds(url, |scheme|);
  }

  /** After a scheme, `//host/path` yields the unescaped path. */
  lemma GoAuthorityPath(scheme: string, host: string, path: string)
    requires scheme != []
    requires forall c :: c in host ==> HostChar(c) && c != ':' && c != '['
    requires |path| > 0 && path[0] == '/'
    requires '?' !in path
    ensures GoPathAfterScheme(scheme, "//" + host + path) == Unescape(path, false)
  {
    var rest := "//" + host + path;
    NoQueryInWebRest(host, path);
    CutAtAbsent(rest, '?');
    assert rest[..1] == "/" && rest[..2] == "//";
    AuthoritySplits(host, path);
    PlainHostAuthority(host);
    GoAuthorityThenPath(scheme, rest, |host|);
  }

  /** After a scheme, a rest without '?' that starts with `//` yields the unescaped path once the authority parses. */
  lemma GoAuthorityThenPath(scheme: string, rest: string, slash: nat)
    requires scheme != [] && '?' !in rest && |rest| >= 2 && rest[..2] == "//"
    requires CutAt(rest, '?') == rest
    requires slash == FirstOf(rest[2..], {'/'}, 0)
    requires ParseAuthority(rest[2..][..slash]) == Ok(())
    ensures GoPathAfterScheme(scheme, rest) == Unescape(rest[2..][slash..], false)
  {
    assert HasPrefix(rest, "/") && HasPrefix(rest, "//");
  }

  /** A host of allowed characters and a path without '?' hold no '?'. */
  lemma NoQueryInWebRest(host: string, path: string)
    requires forall c :: c in host ==> HostChar(c)
    requires '?' !in path
    ensures '?' !in "//" + host + path
  {
    var rest := "//" + host + path;
    forall k | 0 <= k < |rest| ensures rest[k] != '?' {
      if 2 <= k < 2 + |host| {
        assert rest[k] == host[k - 2];
        assert rest[k] in host;
      } else if 2 + |host| <= k {
        assert rest[k] == path[k - 2 - |host|];
      }
    }
  }

  /** The authority after `//` ends at the path's '/'. */
  lemma AuthoritySplits(host: string, path: string)
    requires forall c :: c in host ==> HostChar(c)
    requires |path| > 0 && path[0] == '/'
    ensures var authority := ("//" + host + path)[2..];
      var slash := FirstOf(authority, {'/'}, 0);
      authority[..slash] == host && authority[slash..] == path
  {
    var authority := ("//" + host + path)[2..];
    assert authority == host + path;
    forall k | 0 <= k < |host| ensures host[k] !in {'/'} {
      assert host[k] in host;
    }
    FirstOfAfter(host, path, {'/'});
    assert FirstOf(path, {'/'}, 0) == 0;
  }

  /** A run of letters ended by ':' is a scheme for `net/url`. */
  lemma {:induction false} GoSchemeFinds(u: string, colon: nat)
    requires 0 < colon < |u| && u[colon] == ':'
    requires forall k :: 0 <= k < colon ==> IsAsciiLetter(u[k])
    ensures GoSchemeScan(u, 0) == SchemeEndsAt(colon)
  {
    GoSchemeFindsFrom(u, colon, 0);
  }

  lemma {:induction false} GoSchemeFindsFrom(u: string, colon: nat, i: nat)
    requires i <= colon < |u| && u[colon] == ':' && 0 < colon
    requires forall k :: 0 <= k < colon ==> IsAsciiLetter(u[k])
    ensures GoSchemeScan(u, i) == SchemeEndsAt(colon)
    decreases colon - i
  {
    if i < colon {
      GoSchemeFindsFrom(u, colon, i + 1);
    }
  }
}
