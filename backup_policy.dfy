/**
 * Backup names and the retention rule shared by the two Python backup
 * managers (MinecraftModManager.py and minecraft_mod_manager/managers/backup.py).
 *
 * A backup is called `strftime(backup_name_format) + ".tar.gz"`. Retention
 * finds the backups again with a glob built from the same format, each
 * `%Y %m %d %H %M` replaced by `*`. The `%S` directive of the default format
 * "%Y%m%d_%H%M%S" is not replaced, so the pattern keeps a literal '%' that no
 * generated name contains: `BackupPatternAsWritten` models the code and
 * `AsWrittenPatternMissesBackups` shows the consequence; `BackupPattern`
 * also replaces `%S` and is the pattern the retention models use.
 */
module BackupPolicy {
  import opened Results
  import opened Text

  const DefaultNameFormat: string := "%Y%m%d_%H%M%S"
  const ArchiveSuffix: string := ".tar.gz"
  const SecondsPerDay: int := 86400

  /** A local wall-clock time, as `datetime.now()` gives it. */
  datatype DateTime = DateTime(year: nat, month: nat, day: nat, hour: nat, minute: nat, second: nat)

  /**
   * How far `with tarfile.open(path, "w:gz") as tar: tar.add(...)` got: the
   * open failed and no file was made; the file was made and an add failed,
   * leaving `size` bytes of partial archive behind; or the whole archive of
   * `size` bytes was written.
   */
  datatype Archiving = OpenFailed(error: string) | AddFailed(size: nat, error: string) | Archived(size: nat)

  predicate ValidTime(t: DateTime) {
    1 <= t.year <= 9999 && 1 <= t.month <= 12 && 1 <= t.day <= 31
    && t.hour < 24 && t.minute < 60 && t.second < 60
  }

  /** `n` in exactly `width` decimal digits, zero-padded on the left. */
  function Padded(n: nat, width: nat): (r: string)
    ensures |r| == width && AllDigits(r)
  {
    if width == 0 then [] else Padded(n / 10, width - 1) + [DigitChar(n % 10)]
  }

  /** The text one directive stands for. */
  function Field(c: char, t: DateTime): (r: string)
    requires ValidTime(t)
    ensures AllDigits(r)
  {
    match c
    case 'Y' => Padded(t.year, 4)
    case 'm' => Padded(t.month, 2)
    case 'd' => Padded(t.day, 2)
    case 'H' => Padded(t.hour, 2)
    case 'M' => Padded(t.minute, 2)
    case _ => Padded(t.second, 2)
  }

  /**
   * `strftime` for the directives a backup name format uses: %Y (four digits),
   * %m %d %H %M %S (two digits) and %%; any other character, including the
   * '%' of an unknown directive, is copied.
   */
  function Strftime(fmt: string, t: DateTime): string
    requires ValidTime(t)
  {
    if fmt == [] then []
    else if fmt[0] == '%' && |fmt| >= 2 && fmt[1] in "YmdHMS" then Field(fmt[1], t) + Strftime(fmt[2..], t)
    else if fmt[0] == '%' && |fmt| >= 2 && fmt[1] == '%' then "%" + Strftime(fmt[2..], t)
    else [fmt[0]] + Strftime(fmt[1..], t)
  }

  /** The file name `create_backup` writes: the formatted time and ".tar.gz". */
  function BackupName(fmt: string, t: DateTime): (r: string)
    requires ValidTime(t)
    ensures HasSuffix(r, ArchiveSuffix)
  {
    var stamp := Strftime(fmt, t);
    assert (stamp + ArchiveSuffix)[|stamp|..] == ArchiveSuffix;
    stamp + ArchiveSuffix
  }

  /** A glob over one file name where '*' matches any run of characters and every other character itself. */
  function GlobMatch(p: string, s: string): bool
    decreases |p| + |s|
  {
    if p == [] then s == []
    else if p[0] == '*' then GlobMatch(p[1..], s) || (s != [] && GlobMatch(p, s[1..]))
    else s != [] && s[0] == p[0] && GlobMatch(p[1..], s[1..])
  }

  /** The five `str.replace(directive, '*')` calls of the code, in its order. */
  function ReplaceDateFields(fmt: string): string {
    var y := ReplaceAll(fmt, "%Y", "*");
    var m := ReplaceAll(y, "%m", "*");
    var d := ReplaceAll(m, "%d", "*");
    var h := ReplaceAll(d, "%H", "*");
    ReplaceAll(h, "%M", "*")
  }

  /** `_get_backup_pattern`: the five replacements, a leading `*` and the suffix. */
  function BackupPatternAsWritten(fmt: string): string {
    "*" + ReplaceDateFields(fmt) + ArchiveSuffix
  }

  /** The pattern with the seconds directive replaced too. */
  function BackupPattern(fmt: string): string {
    "*" + ReplaceAll(ReplaceDateFields(fmt), "%S", "*") + ArchiveSuffix
  }

  // ------------------------------------------------------------ glob facts

  /** Every literal character of the pattern appears in each name it matches. */
  lemma {:induction false} GlobLiteralInName(p: string, s: string, i: nat)
    requires GlobMatch(p, s) && i < |p| && p[i] != '*'
    ensures p[i] in s
    decreases |p| + |s|
  {
    if p[0] == '*' {
      if GlobMatch(p[1..], s) {
        GlobLiteralInName(p[1..], s, i - 1);
      } else {
        GlobLiteralInName(p, s[1..], i);
      }
    } else if i > 0 {
      GlobLiteralInName(p[1..], s[1..], i - 1);
    }
  }

  /** A leading '*' absorbs any prefix. */
  lemma {:induction false} StarAbsorbs(p: string, a: string, s: string)
    requires GlobMatch(p, s)
    ensures GlobMatch("*" + p, a + s)
    decreases |a|
  {
    assert ("*" + p)[1..] == p;
    if a != [] {
      StarAbsorbs(p, a[1..], s);
      assert (a + s)[1..] == a[1..] + s;
    } else {
      assert a + s == s;
    }
  }

  /** A pattern without '*' matches exactly itself. */
  lemma {:induction false} GlobLiteralSelf(p: string)
    requires '*' !in p
    ensures GlobMatch(p, p)
  {
    if p != [] {
      assert p[0] in p;
      assert forall c :: c in p[1..] ==> c in p;
      GlobLiteralSelf(p[1..]);
    }
  }

  /** A literal character followed by a matching pattern. */
  lemma LiteralStep(c: char, p: string, s: string)
    requires c != '*' && GlobMatch(p, s)
    ensures GlobMatch([c] + p, [c] + s)
  {
    assert ([c] + p)[1..] == p;
    assert ([c] + s)[1..] == s;
  }

  // ---------------------------------------------------- well-formed formats

  /** The directives a backup name format may use. */
  const Directives: set<char> := {'Y', 'm', 'd', 'H', 'M', 'S'}

  /** A format made of the directives above and of plain characters other than '%'. */
  predicate WellFormedFormat(fmt: string)
    decreases |fmt|
  {
    if fmt == [] then true
    else if fmt[0] == '%' then |fmt| >= 2 && fmt[1] in Directives && WellFormedFormat(fmt[2..])
    else WellFormedFormat(fmt[1..])
  }

  /** The format uses the directive `c`. */
  predicate UsesDirective(fmt: string, c: char)
    requires WellFormedFormat(fmt)
    decreases |fmt|
  {
    if fmt == [] then false
    else if fmt[0] == '%' then fmt[1] == c || UsesDirective(fmt[2..], c)
    else UsesDirective(fmt[1..], c)
  }

  /** The format with each directive in `xs` replaced by '*' and the others kept. */
  function Starred(fmt: string, xs: set<char>): string
    requires WellFormedFormat(fmt)
    decreases |fmt|
  {
    if fmt == [] then []
    else if fmt[0] == '%' then (if fmt[1] in xs then "*" else fmt[..2]) + Starred(fmt[2..], xs)
    else [fmt[0]] + Starred(fmt[1..], xs)
  }

  /** A two-character directive at the head: replaced when it is the pattern, copied otherwise. */
  lemma ReplaceDirective(x: char, d: char, rest: string, rep: string)
    requires d != '%'
    ensures ReplaceAll(['%', d] + rest, ['%', x], rep)
      == (if d == x then rep else ['%', d]) + ReplaceAll(rest, ['%', x], rep)
  {
    var s := ['%', d] + rest;
    assert s[..2] == ['%', d] && s[2..] == rest;
    if d != x {
      assert s[1..] == [d] + rest;
      var t := s[1..];
      if |t| >= 2 {
        assert t[..2][0] == d;
      }
      assert t[1..] == rest;
    }
  }

  /** A character that does not start the pattern is copied. */
  lemma ReplaceCopy(c: char, rest: string, pat: string, rep: string)
    requires |pat| > 0 && c != pat[0]
    ensures ReplaceAll([c] + rest, pat, rep) == [c] + ReplaceAll(rest, pat, rep)
  {
    var s := [c] + rest;
    if |s| >= |pat| {
      assert s[..|pat|][0] == c;
    }
    assert s[1..] == rest;
  }

  lemma {:induction false} StarredNothing(fmt: string)
    requires WellFormedFormat(fmt)
    ensures Starred(fmt, {}) == fmt
    decreases |fmt|
  {
    if fmt != [] {
      if fmt[0] == '%' {
        StarredNothing(fmt[2..]);
        assert fmt == fmt[..2] + fmt[2..];
      } else {
        StarredNothing(fmt[1..]);
        assert fmt == [fmt[0]] + fmt[1..];
      }
    }
  }

  /** One replacement pass stars exactly the directive it names. */
  lemma {:induction false} PassStars(fmt: string, xs: set<char>, x: char)
    requires WellFormedFormat(fmt) && x in Directives
    ensures ReplaceAll(Starred(fmt, xs), ['%', x], "*") == Starred(fmt, xs + {x})
    decreases |fmt|
  {
    if fmt != [] {
      if fmt[0] == '%' {
        var d := fmt[1];
        PassStars(fmt[2..], xs, x);
        if d in xs {
          ReplaceCopy('*', Starred(fmt[2..], xs), ['%', x], "*");
        } else {
          assert fmt[..2] == ['%', d];
          ReplaceDirective(x, d, Starred(fmt[2..], xs), "*");
        }
      } else {
        PassStars(fmt[1..], xs, x);
        ReplaceCopy(fmt[0], Starred(fmt[1..], xs), ['%', x], "*");
      }
    }
  }

  /** The five passes of the code star every directive but the seconds. */
  lemma DateFieldsStarred(fmt: string)
    requires WellFormedFormat(fmt)
    ensures ReplaceDateFields(fmt) == Starred(fmt, {'Y', 'm', 'd', 'H', 'M'})
  {
    StarredNothing(fmt);
    var y := ReplaceAll(fmt, "%Y", "*");
    PassStars(fmt, {}, 'Y');
    assert {} + {'Y'} == {'Y'};
    assert y == Starred(fmt, {'Y'});
    var m := ReplaceAll(y, "%m", "*");
    PassStars(fmt, {'Y'}, 'm');
    assert {'Y'} + {'m'} == {'Y', 'm'};
    assert m == Starred(fmt, {'Y', 'm'});
    var d := ReplaceAll(m, "%d", "*");
    PassStars(fmt, {'Y', 'm'}, 'd');
    assert {'Y', 'm'} + {'d'} == {'Y', 'm', 'd'};
    assert d == Starred(fmt, {'Y', 'm', 'd'});
    var h := ReplaceAll(d, "%H", "*");
    PassStars(fmt, {'Y', 'm', 'd'}, 'H');
    assert {'Y', 'm', 'd'} + {'H'} == {'Y', 'm', 'd', 'H'};
    assert h == Starred(fmt, {'Y', 'm', 'd', 'H'});
    PassStars(fmt, {'Y', 'm', 'd', 'H'}, 'M');
    assert {'Y', 'm', 'd', 'H'} + {'M'} == {'Y', 'm', 'd', 'H', 'M'};
  }

  /** The pattern as written: every directive but the seconds becomes '*'. */
  lemma AsWrittenPatternShape(fmt: string)
    requires WellFormedFormat(fmt)
    ensures BackupPatternAsWritten(fmt) == "*" + Starred(fmt, {'Y', 'm', 'd', 'H', 'M'}) + ArchiveSuffix
  {
    DateFieldsStarred(fmt);
  }

  /** The corrected pattern: every directive becomes '*'. */
  lemma PatternShape(fmt: string)
    requires WellFormedFormat(fmt)
    ensures BackupPattern(fmt) == "*" + Starred(fmt, Directives) + ArchiveSuffix
  {
    DateFieldsStarred(fmt);
    PassStars(fmt, {'Y', 'm', 'd', 'H', 'M'}, 'S');
    assert {'Y', 'm', 'd', 'H', 'M'} + {'S'} == Directives;
  }

  /** A directive left unstarred keeps its '%'. */
  lemma {:induction false} UnstarredKeepsPercent(fmt: string, xs: set<char>, c: char)
    requires WellFormedFormat(fmt) && UsesDirective(fmt, c) && c !in xs
    ensures '%' in Starred(fmt, xs)
    decreases |fmt|
  {
    if fmt[0] == '%' {
      if fmt[1] == c {
        assert Starred(fmt, xs)[0] == '%';
      } else {
        UnstarredKeepsPercent(fmt[2..], xs, c);
        var head := if fmt[1] in xs then "*" else fmt[..2];
        assert Starred(fmt, xs) == head + Starred(fmt[2..], xs);
      }
    } else {
      UnstarredKeepsPercent(fmt[1..], xs, c);
      assert Starred(fmt, xs) == [fmt[0]] + Starred(fmt[1..], xs);
    }
  }

  /** A name formatted from a well-formed format holds no '%'. */
  lemma {:induction false} StampHasNoPercent(fmt: string, t: DateTime)
    requires WellFormedFormat(fmt) && ValidTime(t)
    ensures '%' !in Strftime(fmt, t)
    decreases |fmt|
  {
    if fmt != [] {
      if fmt[0] == '%' {
        StampHasNoPercent(fmt[2..], t);
        var f := Field(fmt[1], t);
        assert forall k :: 0 <= k < |f| ==> f[k] != '%' by {
          assert AllDigits(f);
        }
      } else {
        StampHasNoPercent(fmt[1..], t);
      }
    }
  }

  /**
   * The defect: for every format that uses the seconds directive, the default
   * among them, the pattern as written matches none of the backups the
   * manager creates, so retention never deletes anything.
   */
  lemma AsWrittenPatternMissesBackups(fmt: string, t: DateTime)
    requires WellFormedFormat(fmt) && UsesDirective(fmt, 'S') && ValidTime(t)
    ensures !GlobMatch(BackupPatternAsWritten(fmt), BackupName(fmt, t))
  {
    AsWrittenPatternShape(fmt);
    var core := Starred(fmt, {'Y', 'm', 'd', 'H', 'M'});
    UnstarredKeepsPercent(fmt, {'Y', 'm', 'd', 'H', 'M'}, 'S');
    var i :| 0 <= i < |core| && core[i] == '%';
    var p := BackupPatternAsWritten(fmt);
    assert p[i + 1] == '%';
    var stamp := Strftime(fmt, t);
    StampHasNoPercent(fmt, t);
    assert '%' !in ArchiveSuffix;
    if GlobMatch(p, stamp + ArchiveSuffix) {
      GlobLiteralInName(p, stamp + ArchiveSuffix, i + 1);
      assert false;
    }
  }

  /** Matching a formatted name: each '*' absorbs the field its directive produced. */
  lemma {:induction false} StarredMatchesStamp(fmt: string, t: DateTime, p: string, s: string)
    requires WellFormedFormat(fmt) && ValidTime(t) && GlobMatch(p, s)
    ensures GlobMatch(Starred(fmt, Directives) + p, Strftime(fmt, t) + s)
    decreases |fmt|
  {
    if fmt == [] {
      assert Starred(fmt, Directives) + p == p;
      assert Strftime(fmt, t) + s == s;
    } else if fmt[0] == '%' {
      StarredMatchesStamp(fmt[2..], t, p, s);
      DirectiveStep(fmt, t, p, s);
    } else {
      StarredMatchesStamp(fmt[1..], t, p, s);
      LiteralCharStep(fmt, t, p, s);
    }
  }

  /** A directive at the head of the format: its '*' absorbs the field. */
  lemma DirectiveStep(fmt: string, t: DateTime, p: string, s: string)
    requires WellFormedFormat(fmt) && ValidTime(t) && fmt != [] && fmt[0] == '%'
    requires GlobMatch(Starred(fmt[2..], Directives) + p, Strftime(fmt[2..], t) + s)
    ensures GlobMatch(Starred(fmt, Directives) + p, Strftime(fmt, t) + s)
  {
    var rest := fmt[2..];
    StarAbsorbs(Starred(rest, Directives) + p, Field(fmt[1], t), Strftime(rest, t) + s);
    assert Starred(fmt, Directives) + p == "*" + (Starred(rest, Directives) + p);
    assert Strftime(fmt, t) + s == Field(fmt[1], t) + (Strftime(rest, t) + s);
  }

  /** A plain character at the head of the format matches itself ('*' matches it too). */
  lemma LiteralCharStep(fmt: string, t: DateTime, p: string, s: string)
    requires WellFormedFormat(fmt) && ValidTime(t) && fmt != [] && fmt[0] != '%'
    requires GlobMatch(Starred(fmt[1..], Directives) + p, Strftime(fmt[1..], t) + s)
    ensures GlobMatch(Starred(fmt, Directives) + p, Strftime(fmt, t) + s)
  {
    var c, rest := fmt[0], fmt[1..];
    assert Starred(fmt, Directives) + p == [c] + (Starred(rest, Directives) + p);
    assert Strftime(fmt, t) + s == [c] + (Strftime(rest, t) + s);
    if c == '*' {
      StarAbsorbs(Starred(rest, Directives) + p, [c], Strftime(rest, t) + s);
      assert ['*'] + (Starred(rest, Directives) + p) == "*" + (Starred(rest, Directives) + p);
    } else {
      LiteralStep(c, Starred(rest, Directives) + p, Strftime(rest, t) + s);
    }
  }

  /** The starred format followed by the suffix matches the formatted name followed by the suffix. */
  lemma StarredNameMatches(fmt: string, t: DateTime)
    requires WellFormedFormat(fmt) && ValidTime(t)
    ensures GlobMatch(Starred(fmt, Directives) + ArchiveSuffix, Strftime(fmt, t) + ArchiveSuffix)
  {
    GlobLiteralSelf(ArchiveSuffix);
    StarredMatchesStamp(fmt, t, ArchiveSuffix, ArchiveSuffix);
  }

  /** With the seconds directive replaced as well, every backup the manager creates is found. */
  lemma PatternFindsBackups(fmt: string, t: DateTime)
    requires WellFormedFormat(fmt) && ValidTime(t)
    ensures GlobMatch(BackupPattern(fmt), BackupName(fmt, t))
  {
    StarredNameMatches(fmt, t);
    StarAbsorbs(Starred(fmt, Directives) + ArchiveSuffix, [], Strftime(fmt, t) + ArchiveSuffix);
    PatternAndName(fmt, t);
  }

  /** The corrected pattern and a backup's name, each as a '*' or an empty prefix before the parts matched above. */
  lemma PatternAndName(fmt: string, t: DateTime)
    requires WellFormedFormat(fmt) && ValidTime(t)
    ensures BackupPattern(fmt) == "*" + (Starred(fmt, Directives) + ArchiveSuffix)
    ensures BackupName(fmt, t) == [] + (Strftime(fmt, t) + ArchiveSuffix)
  {
    PatternShape(fmt);
  }

  /** The default format is well formed and uses the seconds directive, so both lemmas above apply to it. */
  lemma DefaultFormatUsesSeconds()
    ensures WellFormedFormat(DefaultNameFormat) && UsesDirective(DefaultNameFormat, 'S')
  {
    var f := DefaultNameFormat;
    DefaultFormatWellFormed();
    assert f[2..] == "%m%d_%H%M%S" && f[4..] == "%d_%H%M%S" && f[6..] == "_%H%M%S";
    assert f[7..] == "%H%M%S" && f[9..] == "%M%S" && f[11..] == "%S";
    assert UsesDirective(f[11..], 'S');
    assert UsesDirective(f[9..], 'S');
    assert UsesDirective(f[7..], 'S');
    assert UsesDirective(f[6..], 'S');
    assert UsesDirective(f[4..], 'S');
    assert UsesDirective(f[2..], 'S');
  }

  lemma DefaultFormatWellFormed()
    ensures WellFormedFormat(DefaultNameFormat)
  {
    var f := DefaultNameFormat;
    assert f[2..] == "%m%d_%H%M%S" && f[4..] == "%d_%H%M%S" && f[6..] == "_%H%M%S";
    assert f[7..] == "%H%M%S" && f[9..] == "%M%S" && f[11..] == "%S";
    assert WellFormedFormat(f[11..]);
    assert WellFormedFormat(f[9..]);
    assert WellFormedFormat(f[7..]);
    assert WellFormedFormat(f[6..]);
    assert WellFormedFormat(f[4..]);
    assert WellFormedFormat(f[2..]);
  }

  // -------------------------------------------------------------- retention

  /**
   * Why a backup at position `idx` of the newest-first listing is deleted, if
   * at all: "age" when its modification time is before the cutoff, "count"
   * when `idx` is past `maxBackups`; "count" wins when both hold.
   */
  function DeleteReason(idx: nat, mtime: int, now: int, keepDays: int, maxBackups: int): (r: Option<string>)
    ensures r.Some? <==> (mtime < now - keepDays * SecondsPerDay || idx >= maxBackups)
    ensures r == Some("count") <==> idx >= maxBackups
    ensures r == Some("age") <==> idx < maxBackups && mtime < now - keepDays * SecondsPerDay
  {
    var reason := if mtime < now - keepDays * SecondsPerDay then Some("age") else None;
    if idx >= maxBackups then Some("count") else reason
  }
}
