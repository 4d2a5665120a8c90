// JSON-with-comments handling (minecraft_mod_manager/utils/jsonc.py) and the
// two regular-expression substitutions it shares with MinecraftModManager.py.
// Below, OPEN is the two characters slash-star and CLOSE is star-slash.
//
//   line comments, `//.*$` under MULTILINE: from each leftmost "//" to the
//   end of its line;
//   block comments, OPEN `.*?` CLOSE under DOTALL: each OPEN with the nearest
//   following CLOSE.
//
// The JSON parser is a parameter. Neither substitution knows about JSON string
// literals: a "//" inside a string value (any URL) is cut like a comment.
module Jsonc {
  import opened Results
  import opened Text

  /** The first '\n' at or after `i`, or the end of the text (where `$` matches). */
  function EndOfLine(s: string, i: nat): (j: nat)
    requires i <= |s|
    ensures i <= j <= |s|
    ensures forall k :: i <= k < j ==> s[k] != '\n'
    ensures j < |s| ==> s[j] == '\n'
  {
    match IndexFrom(s, "\n", i)
    case None =>
      assert forall k :: i <= k < |s| ==> s[k] != '\n' by {
        forall k | i <= k < |s| ensures s[k] != '\n' {
          assert !OccursAt(s, "\n", k);
          assert s[k..k + 1] == [s[k]];
        }
      }
      |s|
    case Some(j) =>
      assert forall k :: i <= k < j ==> s[k] != '\n' by {
        forall k | i <= k < j ensures s[k] != '\n' {
          assert !OccursAt(s, "\n", k);
          assert s[k..k + 1] == [s[k]];
        }
      }
      assert s[j..j + 1] == "\n";
      j
  }

  /** `re.sub(r'//.*$', '', s, flags=re.MULTILINE)`. */
  function StripLineComments(s: string): string
    decreases |s|
  {
    match IndexFrom(s, "//", 0)
    case None => s
    case Some(i) =>
      var j := EndOfLine(s, i + 2);
      s[..i] + StripLineComments(s[j..])
  }

  // The block-comment substitution (non-greedy, DOTALL).
  function StripBlockComments(s: string): string
    decreases |s|
  {
    match IndexFrom(s, "/*", 0)
    case None => s
    case Some(i) =>
      match IndexFrom(s, "*/", i + 2)
      case None => s
      case Some(k) => s[..i] + StripBlockComments(s[k + 2..])
  }

  function CountChar(s: string, c: char): nat {
    if s == [] then 0 else (if s[0] == c then 1 else 0) + CountChar(s[1..], c)
  }

  lemma {:induction false} CountCharAppend(a: string, b: string, c: char)
    ensures CountChar(a + b, c) == CountChar(a, c) + CountChar(b, c)
  {
    if a != [] {
      assert (a + b)[0] == a[0];
      assert (a + b)[1..] == a[1..] + b;
      CountCharAppend(a[1..], b, c);
    } else {
      assert a + b == b;
    }
  }

  lemma {:induction false} CountCharAbsent(s: string, c: char)
    requires forall k :: 0 <= k < |s| ==> s[k] != c
    ensures CountChar(s, c) == 0
  {
    if s != [] {
      CountCharAbsent(s[1..], c);
    }
  }

  /** One step of line-comment removal: the text before the marker, then the rest from the line break on. */
  lemma LineStripStep(s: string, i: nat)
    requires IndexFrom(s, "//", 0) == Some(i)
    ensures i + 2 <= |s| && s[i] == '/' && s[i + 1] == '/'
    ensures StripLineComments(s) == s[..i] + StripLineComments(s[EndOfLine(s, i + 2)..])
  {
    assert OccursAt(s, "//", i);
    assert s[i..i + 2] == "//";
  }

  /** Removing line comments never joins two lines: the number of line breaks is kept. */
  lemma {:induction false} LineStripKeepsLineBreaks(s: string)
    ensures CountChar(StripLineComments(s), '\n') == CountChar(s, '\n')
    decreases |s|
  {
    var found := IndexFrom(s, "//", 0);
    if found.Some? {
      var i := found.value;
      LineStripStep(s, i);
      var j := EndOfLine(s, i + 2);
      var rest := s[j..];
      LineStripKeepsLineBreaks(rest);
      CountWithoutPart(s, i, j, '\n');
      CountCharAppend(s[..i], StripLineComments(rest), '\n');
    }
  }

  /** Cutting out a part without `c` leaves the count of `c` unchanged. */
  lemma CountWithoutPart(s: string, i: nat, j: nat, c: char)
    requires i <= j <= |s|
    requires forall k :: i <= k < j ==> s[k] != c
    ensures CountChar(s, c) == CountChar(s[..i], c) + CountChar(s[j..], c)
  {
    var cut := s[i..j];
    forall k | 0 <= k < |cut| ensures cut[k] != c {
      assert cut[k] == s[i + k];
    }
    CountCharAbsent(cut, c);
    CountThreeParts(s, i, j, c);
  }

  lemma CountThreeParts(s: string, i: nat, j: nat, c: char)
    requires i <= j <= |s|
    ensures CountChar(s, c) == CountChar(s[..i], c) + CountChar(s[i..j], c) + CountChar(s[j..], c)
  {
    assert s == s[..j] + s[j..];
    CountCharAppend(s[..j], s[j..], c);
    assert s[..j] == s[..i] + s[i..j];
    CountCharAppend(s[..i], s[i..j], c);
  }

  /** Line-comment removal keeps a leading line break. */
  lemma LineStripKeepsLeadingBreak(s: string)
    requires s != [] && s[0] == '\n'
    ensures StripLineComments(s) != [] && StripLineComments(s)[0] == '\n'
  {
    assert !OccursAt(s, "//", 0);
    var found := IndexFrom(s, "//", 0);
    if found.Some? {
      LineStripStep(s, found.value);
    }
  }

  /** Joining two texts without "//" makes none, unless the second starts with '/'. */
  lemma NoLineMarkerConcat(x: string, y: string)
    requires !Contains(x, "//") && !Contains(y, "//")
    requires y == [] || y[0] != '/'
    ensures !Contains(x + y, "//")
  {
    var r := x + y;
    forall p | 0 <= p <= |r| - 2 ensures !OccursAt(r, "//", p) {
      if p + 2 <= |x| {
        OccursInLeft(x, y, "//", p);
        assert !OccursAt(x, "//", p);
      } else if p + 1 == |x| {
        assert r[p + 1] == y[0] != '/';
        assert r[p..p + 2][1] == r[p + 1];
      } else {
        OccursInRight(x, y, "//", p);
        assert !OccursAt(y, "//", p - |x|);
      }
    }
  }

  /** After line-comment removal no "//" is left anywhere. */
  lemma {:induction false} LineStripLeavesNoMarker(s: string)
    ensures !Contains(StripLineComments(s), "//")
    decreases |s|
  {
    var found := IndexFrom(s, "//", 0);
    if found.Some? {
      var i := found.value;
      LineStripStep(s, i);
      var j := EndOfLine(s, i + 2);
      LineStripLeavesNoMarker(s[j..]);
      if j < |s| {
        LineStripKeepsLeadingBreak(s[j..]);
      }
      forall p: int | 0 <= p && p + 2 <= i ensures !OccursAt(s[..i], "//", p) {
        assert s[..i][p..p + 2] == s[p..p + 2];
        assert !OccursAt(s, "//", p);
      }
      NoLineMarkerConcat(s[..i], StripLineComments(s[j..]));
    }
  }

  // Text without OPEN passes block-comment removal unchanged.
  lemma BlockStripWithoutMarker(s: string)
    requires !Contains(s, "/*")
    ensures StripBlockComments(s) == s
  {
    match IndexFrom(s, "/*", 0)
    case None =>
    case Some(i) =>
  }

  // An unterminated OPEN and everything after it are kept.
  lemma {:induction false} BlockStripUnterminated(a: string, c: string)
    requires !Contains(a, "/*") && !Contains(c, "*/")
    ensures StripBlockComments(a + "/*" + c) == a + "/*" + c
  {
    var s := a + "/*" + c;
    FirstMarker(a, c);
    forall k | |a| + 2 <= k ensures !OccursAt(s, "*/", k) {
      if OccursAt(s, "*/", k) {
        assert s[k..k + 2] == c[k - |a| - 2..k - |a|];
        assert OccursAt(c, "*/", k - |a| - 2);
      }
    }
    match IndexFrom(s, "*/", |a| + 2)
    case None =>
    case Some(k) =>
  }

  // A closed comment without CLOSE inside is removed, and removal resumes after it.
  lemma BlockStripClosed(a: string, c: string, t: string)
    requires !Contains(a, "/*") && !Contains(c, "*/")
    ensures StripBlockComments(a + "/*" + c + "*/" + t) == a + StripBlockComments(t)
  {
    var s := a + "/*" + c + "*/" + t;
    assert s == a + "/*" + (c + "*/" + t);
    FirstMarker(a, c + "*/" + t);
    var k := |a| + 2 + |c|;
    CloseFound(a, c, t);
    assert s[..|a|] == a;
    assert s[k + 2..] == t;
  }

  // The CLOSE that ends the comment opened after a is the one after c.
  lemma CloseFound(a: string, c: string, t: string)
    requires !Contains(c, "*/")
    ensures IndexFrom(a + "/*" + c + "*/" + t, "*/", |a| + 2) == Some(|a| + 2 + |c|)
  {
    var s := a + "/*" + c + "*/" + t;
    var k := |a| + 2 + |c|;
    assert OccursAt(s, "*/", k) by { assert s[k..k + 2] == "*/"; }
    assert s == (a + "/*") + (c + ("*/" + t));
    forall p | |a| + 2 <= p < k ensures !OccursAt(s, "*/", p) {
      OccursInRight(a + "/*", c + ("*/" + t), "*/", p);
      if p + 2 <= k {
        OccursInLeft(c, "*/" + t, "*/", p - |a| - 2);
        assert !OccursAt(c, "*/", p - |a| - 2);
      } else {
        assert s[p + 1] == s[k] == '*';
        assert s[p..p + 2][1] == s[p + 1];
      }
    }
  }

  // The first OPEN of a + OPEN + rest is the one after a.
  lemma FirstMarker(a: string, rest: string)
    requires !Contains(a, "/*")
    ensures IndexFrom(a + "/*" + rest, "/*", 0) == Some(|a|)
  {
    var s := a + "/*" + rest;
    assert OccursAt(s, "/*", |a|) by { assert s[|a|..|a| + 2] == "/*"; }
    forall p | 0 <= p < |a| ensures !OccursAt(s, "/*", p) {
      if p + 2 <= |a| {
        assert s[p..p + 2] == a[p..p + 2];
        assert !OccursAt(a, "/*", p);
      } else {
        assert s[p..p + 2][1] == s[|a|] == '/';
      }
    }
  }

  /** A URL inside a JSON string is cut at its "//" like a comment. */
  lemma LineStripCutsUrls()
    ensures StripLineComments("[\"a://b\"]") == "[\"a:"
  {
    var s := "[\"a://b\"]";
    assert s[0] == '[' && s[1] == '"' && s[2] == 'a' && s[3] == ':' && s[4] == '/' && s[5] == '/';
    assert s[6] == 'b' && s[7] == '"' && s[8] == ']' && |s| == 9;
    assert IndexFrom(s, "//", 0) == Some(4) by {
      assert OccursAt(s, "//", 4) by { assert s[4..6] == "//"; }
    }
    LineStripStep(s, 4);
    assert EndOfLine(s, 6) == |s|;
    assert s[|s|..] == [];
    assert s[..4] == "[\"a:";
  }

  // ------------------------------------------------------ load_jsonc

  /** What reading the configuration file produced. */
  datatype FileRead = Content(text: string) | NotFound | Unreadable(reason: string)

  /** A JSON decoding failure: the decoder's message and the offending offset. */
  datatype DecodeFailure = DecodeFailure(message: string, pos: nat)

  datatype LoadError =
    | FileNotFound(message: string)
    | JsonDecode(message: string, pos: nat)
    | Runtime(message: string)

  /**
   * `load_jsonc`: strip line comments, then block comments, then decode.
   * A missing file, undecodable text and any other failure are mapped to the
   * three exception kinds the loader raises.
   */
  function LoadJsonc<V>(path: string, read: FileRead, decode: string -> Result<V, DecodeFailure>): (r: Result<V, LoadError>)
    ensures read.NotFound? ==> r == Err(FileNotFound("Configuration file not found: " + path))
    ensures read.Unreadable? ==> r == Err(Runtime("Error loading configuration file: " + read.reason))
    ensures read.Content? ==>
      var stripped := StripBlockComments(StripLineComments(read.text));
      match decode(stripped)
      case Ok(v) => r == Ok(v)
      case Err(f) => r == Err(JsonDecode("Invalid JSON in configuration file: " + f.message, f.pos))
  {
    match read
    case NotFound => Err(FileNotFound("Configuration file not found: " + path))
    case Unreadable(reason) => Err(Runtime("Error loading configuration file: " + reason))
    case Content(text) =>
      var withoutLineComments := StripLineComments(text);
      var content := StripBlockComments(withoutLineComments);
      match decode(content)
      case Ok(v) => Ok(v)
      case Err(f) => Err(JsonDecode("Invalid JSON in configuration file: " + f.message, f.pos))
  }
}
