/**
 * The backup clean-up shared by the Python implementations: list the
 * archives a glob pattern finds, sort them newest first, and walk the list
 * deleting every archive that is too old or past the count limit.
 */
module Retention {
  import opened Results
  import opened FileSystem
  import BackupPolicy
  import Ordering

  function MTime(e: Entry): int {
    e.mtime
  }

  /** The entries the glob `pattern` finds, in listing order; directories are not excluded. */
  function Matching(entries: seq<Entry>, pattern: string): (r: seq<Entry>)
    ensures forall e :: e in r <==> e in entries && BackupPolicy.GlobMatch(pattern, e.name)
  {
    if entries == [] then []
    else
      assert forall e :: e in entries <==> e == entries[0] || e in entries[1..];
      (if BackupPolicy.GlobMatch(pattern, entries[0].name) then [entries[0]] else []) + Matching(entries[1..], pattern)
  }

  /** The archives `pattern` finds, newest first. */
  function Listing(entries: seq<Entry>, pattern: string): (r: seq<Entry>)
    ensures Ordering.Descending(r, MTime)
    ensures multiset(r) == multiset(Matching(entries, pattern))
  {
    Ordering.SortDescending(Matching(entries, pattern), MTime)
  }

  /** Archives with the same modification time stay in the order the glob found them. */
  lemma ListingKeepsTies(entries: seq<Entry>, pattern: string, t: int)
    ensures Ordering.WithKey(Listing(entries, pattern), MTime, t) == Ordering.WithKey(Matching(entries, pattern), MTime, t)
  {
    Ordering.SortKeepsTies(Matching(entries, pattern), MTime, t);
  }

  /** The names deleted from position `i` of the newest-first list `files` on, in order. */
  function DoomedFrom(files: seq<Entry>, i: nat, now: int, keepDays: int, maxBackups: int): seq<string>
    decreases |files| - i
  {
    if i >= |files| then []
    else
      var here := if BackupPolicy.DeleteReason(i, files[i].mtime, now, keepDays, maxBackups).Some? then [files[i].name] else [];
      here + DoomedFrom(files, i + 1, now, keepDays, maxBackups)
  }

  /** The names a clean-up deletes from the newest-first list `files`, in order. */
  function Doomed(files: seq<Entry>, now: int, keepDays: int, maxBackups: int): seq<string> {
    DoomedFrom(files, 0, now, keepDays, maxBackups)
  }

  /** A name is doomed exactly when some archive of that name has a reason to go. */
  lemma {:induction false} DoomedMembers(files: seq<Entry>, i: nat, now: int, keepDays: int, maxBackups: int)
    ensures forall n :: n in DoomedFrom(files, i, now, keepDays, maxBackups) <==>
      exists k :: i <= k < |files| && files[k].name == n && BackupPolicy.DeleteReason(k, files[k].mtime, now, keepDays, maxBackups).Some?
    decreases |files| - i
  {
    if i < |files| {
      DoomedMembers(files, i + 1, now, keepDays, maxBackups);
    }
  }

  function Max0(n: int): nat {
    if n > 0 then n else 0
  }

  /**
   * At most `maxBackups` archives survive a clean-up (none when the limit is
   * zero or negative), whatever their ages.
   */
  lemma {:induction false} KeptAtMost(files: seq<Entry>, i: nat, now: int, keepDays: int, maxBackups: int)
    requires i <= |files|
    ensures |files| - i - |DoomedFrom(files, i, now, keepDays, maxBackups)| <= Max0(maxBackups - i)
    decreases |files| - i
  {
    if i < |files| {
      KeptAtMost(files, i + 1, now, keepDays, maxBackups);
    }
  }

  /** The archives that survive: the newest `maxBackups` minus those older than `keepDays` days. */
  lemma KeptCount(files: seq<Entry>, now: int, keepDays: int, maxBackups: int)
    ensures |files| - |Doomed(files, now, keepDays, maxBackups)| <= Max0(maxBackups)
  {
    KeptAtMost(files, 0, now, keepDays, maxBackups);
  }

  /**
   * The deletion loop: visit the newest-first list `files` and remove every
   * archive whose DeleteReason is set, in order. A failed removal whose kind
   * is in `tolerated` is skipped; any other failure ends the loop. `done`
   * counts the doomed archives passed before the end.
   */
  method Sweep(d: Directory, files: seq<Entry>, now: int, keepDays: int, maxBackups: int, tolerated: set<Removal>)
    returns (stopped: Option<Removal>, done: nat)
    modifies d
    ensures d.locked == old(d.locked)
    ensures var victims := Doomed(files, now, keepDays, maxBackups);
      RanUntil(old(d.entries), old(d.locked), victims, done, tolerated) &&
      d.entries == Removals(old(d.entries), old(d.locked), victims[..done]) &&
      (stopped.Some? <==> done < |victims|) &&
      (stopped.Some? ==> stopped.value == RemovalOutcome(d.entries, d.locked, victims[done]))
  {
    ghost var victims := Doomed(files, now, keepDays, maxBackups);
    ghost var e0, l0 := d.entries, d.locked;
    var attempted: seq<string> := [];
    var idx := 0;
    while idx < |files|
      invariant idx <= |files|
      invariant attempted + DoomedFrom(files, idx, now, keepDays, maxBackups) == victims
      invariant d.entries == Removals(e0, l0, attempted) && d.locked == l0
      invariant forall j :: 0 <= j < |attempted| ==> !Stops(e0, l0, attempted[..j], attempted[j], tolerated)
    {
      var reason := BackupPolicy.DeleteReason(idx, files[idx].mtime, now, keepDays, maxBackups);
      ghost var rest := DoomedFrom(files, idx + 1, now, keepDays, maxBackups);
      if reason.Some? {
        var name := files[idx].name;
        DoomedStep(attempted, name, rest);
        assert victims == attempted + [name] + rest;
        RemovalsStep(e0, l0, attempted, name);
        var r := d.Remove(name);
        if !r.Removed? && r !in tolerated {
          stopped, done := Some(r), |attempted|;
          PrefixRun(e0, l0, victims, attempted, tolerated);
          assert victims[done] == name;
          return;
        }
        NoStopExtends(e0, l0, attempted, name, tolerated);
        attempted := attempted + [name];
      } else {
        assert DoomedFrom(files, idx, now, keepDays, maxBackups) == rest;
      }
      idx := idx + 1;
    }
    assert attempted == victims;
    stopped, done := None, |attempted|;
    PrefixRun(e0, l0, victims, attempted, tolerated);
  }

  lemma DoomedStep(attempted: seq<string>, name: string, rest: seq<string>)
    ensures attempted + ([name] + rest) == attempted + [name] + rest
  {
  }

  /** The no-stop facts about a run carry over to the list it is a prefix of. */
  lemma PrefixRun(e: seq<Entry>, l: set<string>, names: seq<string>, prefix: seq<string>, tolerated: set<Removal>)
    requires |prefix| <= |names| && names[..|prefix|] == prefix
    requires forall j :: 0 <= j < |prefix| ==> !Stops(e, l, prefix[..j], prefix[j], tolerated)
    ensures forall j :: 0 <= j < |prefix| ==> !Stops(e, l, names[..j], names[j], tolerated)
    ensures names[..|prefix|] == prefix
  {
    forall j | 0 <= j < |prefix| ensures !Stops(e, l, names[..j], names[j], tolerated) {
      assert names[..j] == prefix[..j];
      assert names[j] == prefix[j];
    }
  }

  /** One more removal that did not stop the loop. */
  lemma NoStopExtends(e: seq<Entry>, l: set<string>, done: seq<string>, next: string, tolerated: set<Removal>)
    requires forall j :: 0 <= j < |done| ==> !Stops(e, l, done[..j], done[j], tolerated)
    requires !Stops(e, l, done, next, tolerated)
    ensures var ext := done + [next];
      forall j :: 0 <= j < |ext| ==> !Stops(e, l, ext[..j], ext[j], tolerated)
  {
    var ext := done + [next];
    forall j | 0 <= j < |ext| ensures !Stops(e, l, ext[..j], ext[j], tolerated) {
      if j < |done| {
        assert ext[..j] == done[..j];
      } else {
        assert ext[..j] == done;
      }
    }
  }
}
