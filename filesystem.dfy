/**
 * One directory of the server host (the backups directory, the mods
 * directory), as the operations that list, stat, write and delete in it see it.
 *
 * Contents are abstracted to sizes. `locked` names the entries whose removal
 * fails with a permission error. Directories cannot be removed by the
 * primitives the code uses (`unlink`, `rm` without -r, and Go's `os.Remove`
 * on a directory that is treated as non-empty).
 */
module FileSystem {
  import opened Results

  datatype Entry = Entry(name: string, isDir: bool, size: int, mtime: int)

  datatype Removal = Removed | PermissionDenied | IsDirectory | Missing

  function Find(entries: seq<Entry>, name: string): (r: Option<Entry>)
    ensures r.Some? ==> r.value in entries && r.value.name == name
    ensures r.None? ==> forall e :: e in entries ==> e.name != name
  {
    if entries == [] then None
    else if entries[0].name == name then Some(entries[0])
    else Find(entries[1..], name)
  }

  /** The listing without the entries called `name`, other entries in their order. */
  function Without(entries: seq<Entry>, name: string): (r: seq<Entry>)
    ensures forall e :: e in r <==> e in entries && e.name != name
    ensures |r| <= |entries|
  {
    if entries == [] then []
    else if entries[0].name == name then Without(entries[1..], name)
    else [entries[0]] + Without(entries[1..], name)
  }

  lemma {:induction false} WithoutAppend(s: seq<Entry>, t: seq<Entry>, name: string)
    ensures Without(s + t, name) == Without(s, name) + Without(t, name)
  {
    if s == [] {
      assert s + t == t;
    } else {
      assert (s + t)[1..] == s[1..] + t;
      WithoutAppend(s[1..], t, name);
    }
  }

  /** Removing a name nobody has changes nothing. */
  lemma {:induction false} WithoutAbsent(s: seq<Entry>, name: string)
    requires forall e :: e in s ==> e.name != name
    ensures Without(s, name) == s
  {
    if s != [] {
      WithoutAbsent(s[1..], name);
    }
  }

  lemma {:induction false} WithoutCommutes(s: seq<Entry>, a: string, b: string)
    ensures Without(Without(s, a), b) == Without(Without(s, b), a)
  {
    if s != [] {
      WithoutCommutes(s[1..], a, b);
    }
  }

  lemma {:induction false} WithoutTwice(s: seq<Entry>, a: string)
    ensures Without(Without(s, a), a) == Without(s, a)
  {
    if s != [] {
      WithoutTwice(s[1..], a);
    }
  }

  /**
   * Making a scratch entry, storing a file next to it and removing the
   * scratch entry again leaves the file stored and no scratch entry.
   */
  lemma ReplaceAroundScratch(s: seq<Entry>, scratch: Entry, file: Entry)
    requires scratch.name != file.name
    ensures Without(Without(Without(s, scratch.name) + [scratch], file.name) + [file], scratch.name)
         == Without(Without(s, scratch.name), file.name) + [file]
  {
    var rest := Without(s, scratch.name);
    assert Without([scratch], file.name) == [scratch] by {
      assert [scratch][1..] == [];
    }
    assert Without([file], scratch.name) == [file] by {
      assert [file][1..] == [];
    }
    assert Without([scratch], scratch.name) == [] by {
      assert [scratch][1..] == [];
    }
    calc {
      Without(Without(rest + [scratch], file.name) + [file], scratch.name);
      { WithoutAppend(rest, [scratch], file.name); }
      Without(Without(rest, file.name) + [scratch] + [file], scratch.name);
      { WithoutAppend(Without(rest, file.name) + [scratch], [file], scratch.name); }
      Without(Without(rest, file.name) + [scratch], scratch.name) + [file];
      { WithoutAppend(Without(rest, file.name), [scratch], scratch.name); }
      Without(Without(rest, file.name), scratch.name) + [file];
      { WithoutCommutes(rest, file.name, scratch.name); WithoutTwice(s, scratch.name); }
      Without(rest, file.name) + [file];
    }
  }

  /** The outcome of removing `name` from a directory in the given state. */
  function RemovalOutcome(entries: seq<Entry>, locked: set<string>, name: string): Removal {
    match Find(entries, name)
    case None => Missing
    case Some(e) =>
      if e.name in locked then PermissionDenied
      else if e.isDir then IsDirectory
      else Removed
  }

  /** No two entries of a directory share a name. */
  predicate UniqueNames(entries: seq<Entry>) {
    forall a, b :: a in entries && b in entries && a.name == b.name ==> a == b
  }

  /** The directory after trying to remove each of `names` in turn. */
  function Removals(entries: seq<Entry>, locked: set<string>, names: seq<string>): seq<Entry> {
    if names == [] then entries
    else
      var before := Removals(entries, locked, names[..|names| - 1]);
      var n := names[|names| - 1];
      if RemovalOutcome(before, locked, n).Removed? then Without(before, n) else before
  }

  /** One more removal on top of a run. */
  lemma RemovalsStep(entries: seq<Entry>, locked: set<string>, names: seq<string>, name: string)
    ensures var before := Removals(entries, locked, names);
      Removals(entries, locked, names + [name]) ==
        if RemovalOutcome(before, locked, name).Removed? then Without(before, name) else before
  {
    assert (names + [name])[..|names|] == names;
  }

  /**
   * What a run of removals leaves: only entries that were there; every entry
   * whose name was not tried, every locked one and every directory; and none
   * of the unlocked files that were tried.
   */
  lemma {:induction false} RemovalsEffect(entries: seq<Entry>, locked: set<string>, names: seq<string>)
    requires UniqueNames(entries)
    ensures var r := Removals(entries, locked, names);
      (forall e :: e in r ==> e in entries) &&
      (forall e :: e in entries && (e.name !in names || e.name in locked || e.isDir) ==> e in r) &&
      (forall e :: e in entries && e.name in names && e.name !in locked && !e.isDir ==> e !in r)
  {
    if names != [] {
      var init := names[..|names| - 1];
      var n := names[|names| - 1];
      RemovalsEffect(entries, locked, init);
      var before := Removals(entries, locked, init);
      assert forall x :: x in names <==> x in init || x == n by {
        assert names == init + [n];
      }
      match Find(before, n)
      case None =>
      case Some(f) =>
        assert forall e :: e in entries && e.name == n ==> e in before ==> e == f;
    }
  }

  /**
   * Whether the removal of `next`, after the removals of `done`, fails in a
   * way the caller does not tolerate (and so ends its loop).
   */
  predicate Stops(entries: seq<Entry>, locked: set<string>, done: seq<string>, next: string, tolerated: set<Removal>) {
    var o := RemovalOutcome(Removals(entries, locked, done), locked, next);
    !o.Removed? && o !in tolerated
  }

  /**
   * A loop removing `names` in turn got through the first `k` of them and,
   * if it ended early, ended at the removal of `names[k]`.
   */
  predicate RanUntil(entries: seq<Entry>, locked: set<string>, names: seq<string>, k: int, tolerated: set<Removal>) {
    0 <= k <= |names| &&
    (forall j :: 0 <= j < k ==> !Stops(entries, locked, names[..j], names[j], tolerated)) &&
    (k < |names| ==> Stops(entries, locked, names[..k], names[k], tolerated))
  }

  class Directory {
    /** Entries in the order the operating system lists them. */
    var entries: seq<Entry>
    var locked: set<string>

    constructor (entries: seq<Entry>, locked: set<string>)
      ensures this.entries == entries && this.locked == locked
    {
      this.entries := entries;
      this.locked := locked;
    }

    function Lookup(name: string): Option<Entry>
      reads this
    {
      Find(entries, name)
    }

    /** Remove one entry; on any failure nothing changes. */
    method Remove(name: string) returns (r: Removal)
      modifies this
      ensures r == RemovalOutcome(old(entries), old(locked), name)
      ensures entries == if r.Removed? then Without(old(entries), name) else old(entries)
      ensures locked == old(locked)
    {
      r := RemovalOutcome(entries, locked, name);
      if r.Removed? {
        entries := Without(entries, name);
      }
    }

    /** Create or overwrite the regular file `name`. */
    method Store(name: string, size: int, mtime: int)
      modifies this
      ensures entries == Without(old(entries), name) + [Entry(name, false, size, mtime)]
      ensures locked == old(locked)
    {
      entries := Without(entries, name) + [Entry(name, false, size, mtime)];
    }

    /** `sudo rm -rf name`: the entry goes whatever it is, and a missing one is no error. */
    method Purge(name: string)
      modifies this
      ensures entries == Without(old(entries), name)
      ensures locked == old(locked)
    {
      entries := Without(entries, name);
    }

    /** `sudo mkdir -p name` where nothing called `name` is left: an empty directory. */
    method MakeDir(name: string, mtime: int)
      requires Find(entries, name).None?
      modifies this
      ensures entries == old(entries) + [Entry(name, true, 0, mtime)]
      ensures locked == old(locked)
    {
      entries := entries + [Entry(name, true, 0, mtime)];
    }
  }
}
