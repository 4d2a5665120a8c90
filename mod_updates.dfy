/**
 * The mod-update pipeline the two Python mod managers share
 * (MinecraftModManager.py and minecraft_mod_manager/managers/mod.py):
 * the project id taken from a Modrinth URL, the collection of the looked-up
 * versions into `mod_info` and the failure list, and the download stage that
 * sorts every mod into updated, skipped or failed while it replaces files
 * in the mods directory.
 *
 * The two files differ only in the texts they write (the list bullets, the
 * error text of a failed removal), which are parameters here. The network is
 * a parameter too: `Transfer` is what the HEAD and GET of one mod brought back.
 */
module ModUpdates {
  import opened Results
  import opened Text
  import opened FileSystem
  import Modrinth
  import Batching

  // ------------------------------------------------------------ project id

  /** Joining one more part adds the separator and that part at the end. */
  lemma {:induction false} JoinAppend(parts: seq<string>, sep: string, last: string)
    requires |parts| >= 1
    ensures Join(parts + [last], sep) == Join(parts, sep) + sep + last
    decreases |parts|
  {
    var ps := parts + [last];
    assert ps[0] == parts[0];
    if |parts| > 1 {
      assert ps[1..] == parts[1..] + [last];
      JoinAppend(parts[1..], sep, last);
    } else {
      assert ps[1..] == [last];
    }
  }

  /** Splitting at one more separator adds one part at the end. */
  lemma SplitAppend(prefix: string, sep: char, segment: string)
    requires sep !in segment
    ensures Split(prefix + [sep] + segment, sep) == Split(prefix, sep) + [segment]
  {
    var parts := Split(prefix, sep);
    JoinSplit(prefix, sep);
    JoinAppend(parts, [sep], segment);
    var ps := parts + [segment];
    forall k | 0 <= k < |ps| ensures sep !in ps[k] {
      if k < |parts| { assert ps[k] == parts[k]; }
    }
    SplitJoin(ps, sep);
  }

  lemma SplitWithoutSeparator(s: string, sep: char)
    requires sep !in s
    ensures Split(s, sep) == [s]
  {
    SplitJoin([s], sep);
  }

  /** `url.split('/')[-1]`: what follows the last '/', the whole URL when it has none. */
  function LastSegment(url: string): (r: string)
    ensures '/' !in r
  {
    var parts := Split(url, '/');
    parts[|parts| - 1]
  }

  /** The segment after the last '/' is exactly what follows it, whatever precedes it. */
  lemma LastSegmentAfterSlash(prefix: string, segment: string)
    requires '/' !in segment
    ensures LastSegment(prefix + "/" + segment) == segment
    ensures LastSegment(segment) == segment
  {
    SplitAppend(prefix, '/', segment);
    SplitWithoutSeparator(segment, '/');
  }

  // ---------------------------------------------------------- collection

  /**
   * What the lookups have collected so far: `mod_info` keyed by URL, its
   * keys in the order a Python dict keeps them (first insertion), and the
   * failure lines in order.
   */
  datatype Collected = Collected(modInfo: map<string, Modrinth.ModInfo>, order: seq<string>, failed: seq<string>)

  const Nothing: Collected := Collected(map[], [], [])

  predicate Distinct<T(==)>(s: seq<T>) {
    forall i, j :: 0 <= i < j < |s| ==> s[i] != s[j]
  }

  /** The keys listed in `order` are the keys of the map, each once. */
  predicate WellOrdered(c: Collected) {
    (forall u :: u in c.modInfo ==> u in c.order) && (forall u :: u in c.order ==> u in c.modInfo) && Distinct(c.order)
  }

  /** One lookup's effect: a found version is stored under the URL, a failure adds its line. */
  function Record(c: Collected, url: string, l: Modrinth.Lookup): Collected {
    match l
    case Found(info) => Collected(c.modInfo[url := info], if url in c.modInfo then c.order else c.order + [url], c.failed)
    case Failed(m) => c.(failed := c.failed + [m])
  }

  function Handler(lookup: string -> Modrinth.Lookup): (Collected, string) -> Collected {
    (c: Collected, url: string) => Record(c, url, lookup(url))
  }

  /** The failure lines of the URLs whose lookup fails, in URL order. */
  function FailureLines(urls: seq<string>, lookup: string -> Modrinth.Lookup): seq<string> {
    if urls == [] then []
    else
      var l := lookup(urls[|urls| - 1]);
      FailureLines(urls[..|urls| - 1], lookup) + (if l.Failed? then [l.message] else [])
  }

  /**
   * After the lookups of `urls`: a URL is a key of `mod_info` exactly when it
   * was looked up and found, holding what was found; the failure list holds
   * the failed lookups' lines in order; and the keys are kept in order.
   */
  lemma {:induction false} CollectedContents(urls: seq<string>, lookup: string -> Modrinth.Lookup)
    ensures var c := Batching.Fold(Handler(lookup), Nothing, urls);
      (forall u :: u in c.modInfo <==> u in urls && lookup(u).Found?) &&
      (forall u :: u in c.modInfo ==> c.modInfo[u] == lookup(u).info) &&
      c.failed == FailureLines(urls, lookup) &&
      WellOrdered(c)
  {
    if urls != [] {
      var init := urls[..|urls| - 1];
      var u := urls[|urls| - 1];
      CollectedContents(init, lookup);
      assert urls == init + [u];
      assert forall x :: x in urls <==> x in init || x == u;
      var before := Batching.Fold(Handler(lookup), Nothing, init);
      assert Batching.Fold(Handler(lookup), Nothing, urls) == Record(before, u, lookup(u));
      if lookup(u).Found? && u !in before.modInfo {
        var o := before.order + [u];
        assert forall i :: 0 <= i < |before.order| ==> o[i] == before.order[i] && o[i] != u;
      }
    }
  }

  /** With distinct URLs, every URL lands in exactly one of `mod_info` and the failure list. */
  lemma {:induction false} EachUrlOnce(urls: seq<string>, lookup: string -> Modrinth.Lookup)
    requires Distinct(urls)
    ensures var c := Batching.Fold(Handler(lookup), Nothing, urls);
      |c.order| + |c.failed| == |urls|
  {
    if urls != [] {
      var init := urls[..|urls| - 1];
      var u := urls[|urls| - 1];
      assert Distinct(init);
      EachUrlOnce(init, lookup);
      CollectedContents(init, lookup);
      assert urls == init + [u];
      assert u !in init;
    }
  }

  // ------------------------------------------------------------- download

  /**
   * What the requests for one mod brought back: the HEAD's `content-length`
   * as an integer (0 when the header is absent) or the error raised while
   * getting it, and the GET's body length or the error raised while
   * downloading or writing it.
   */
  datatype Transfer = Transfer(head: Result<int, string>, get: Result<nat, string>)

  /** The list bullet and the arrow of an updated line, as each file spells them. */
  datatype Marks = Marks(bullet: string, arrow: string)

  /** The lines one mod adds to the four lists, and the mods directory afterwards. */
  datatype Step = Step(skipped: Option<string>, added: Option<string>, updated: Option<string>, failed: Option<string>, entries: seq<Entry>)

  function Listed(marks: Marks, info: Modrinth.ModInfo): string {
    marks.bullet + " " + info.projectName + " (" + info.versionNumber + ")"
  }

  function UpdatedLine(marks: Marks, info: Modrinth.ModInfo): string {
    marks.bullet + " " + info.projectName + " " + marks.arrow + " " + info.versionNumber
  }

  function FailedLine(marks: Marks, info: Modrinth.ModInfo, err: string): string {
    marks.bullet + " " + info.projectName + ": " + err
  }

  function Lines(o: Option<string>): seq<string> {
    if o.Some? then [o.value] else []
  }

  /**
   * `_update_single_mod`: an existing file whose size equals the remote
   * length is skipped; another existing file is removed and downloaded
   * again; a missing file is listed as newly added and downloaded. Any error
   * on the way lists the mod as failed.
   */
  function SingleUpdate(entries: seq<Entry>, locked: set<string>, info: Modrinth.ModInfo, t: Transfer, now: int,
                        marks: Marks, removeError: (string, Removal) -> string): (s: Step)
    ensures (if s.skipped.Some? then 1 else 0) + (if s.updated.Some? then 1 else 0) + (if s.failed.Some? then 1 else 0) == 1
    ensures s.added.Some? <==> Find(entries, info.filename).None?
  {
    var name := info.filename;
    match Find(entries, name)
    case None =>
      var added := Some(Listed(marks, info));
      (match t.get
       case Ok(size) => Step(None, added, Some(UpdatedLine(marks, info)), None, Without(entries, name) + [Entry(name, false, size, now)])
       case Err(e) => Step(None, added, None, Some(FailedLine(marks, info, e)), entries))
    case Some(current) =>
      match t.head
      case Err(e) => Step(None, None, None, Some(FailedLine(marks, info, e)), entries)
      case Ok(length) =>
        if length == current.size then Step(Some(Listed(marks, info)), None, None, None, entries)
        else
          var r := RemovalOutcome(entries, locked, name);
          if !r.Removed? then Step(None, None, None, Some(FailedLine(marks, info, removeError(name, r))), entries)
          else
            match t.get
            case Ok(size) => Step(None, None, Some(UpdatedLine(marks, info)), None, Without(entries, name) + [Entry(name, false, size, now)])
            case Err(e) => Step(None, None, None, Some(FailedLine(marks, info, e)), Without(entries, name))
  }

  /** A file of the remote size is skipped and left as it is. */
  lemma SameSizeIsSkipped(entries: seq<Entry>, locked: set<string>, info: Modrinth.ModInfo, t: Transfer, now: int,
                          marks: Marks, removeError: (string, Removal) -> string)
    requires Find(entries, info.filename).Some? && t.head == Ok(Find(entries, info.filename).value.size)
    ensures var s := SingleUpdate(entries, locked, info, t, now, marks, removeError);
      s.skipped == Some(Listed(marks, info)) && s.entries == entries && s.added.None?
  {
  }

  /** A missing file is listed as newly added; once downloaded it is the only entry of that name. */
  lemma MissingIsAdded(entries: seq<Entry>, locked: set<string>, info: Modrinth.ModInfo, t: Transfer, now: int,
                       marks: Marks, removeError: (string, Removal) -> string)
    requires Find(entries, info.filename).None? && t.get.Ok?
    ensures var s := SingleUpdate(entries, locked, info, t, now, marks, removeError);
      s.added == Some(Listed(marks, info)) && s.updated == Some(UpdatedLine(marks, info)) &&
      Find(s.entries, info.filename) == Some(Entry(info.filename, false, t.get.value, now))
  {
    var s := SingleUpdate(entries, locked, info, t, now, marks, removeError);
    var e := Entry(info.filename, false, t.get.value, now);
    WithoutAbsent(entries, info.filename);
    FindAfterStore(entries, e);
  }

  lemma {:induction false} FindAfterStore(entries: seq<Entry>, e: Entry)
    ensures Find(Without(entries, e.name) + [e], e.name) == Some(e)
  {
    if entries != [] {
      FindAfterStore(entries[1..], e);
      if entries[0].name != e.name {
        assert Without(entries, e.name) + [e] == [entries[0]] + (Without(entries[1..], e.name) + [e]);
      }
    }
  }

  /**
   * The old file is removed before the new one is fetched: when the download
   * then fails, the mods directory has no file of that name left.
   */
  lemma FailedReplacementLosesMod(entries: seq<Entry>, locked: set<string>, info: Modrinth.ModInfo, t: Transfer, now: int,
                                  marks: Marks, removeError: (string, Removal) -> string)
    requires Find(entries, info.filename).Some? && RemovalOutcome(entries, locked, info.filename).Removed?
    requires t.head.Ok? && t.head.value != Find(entries, info.filename).value.size && t.get.Err?
    ensures var s := SingleUpdate(entries, locked, info, t, now, marks, removeError);
      s.failed == Some(FailedLine(marks, info, t.get.error)) && Find(s.entries, info.filename).None?
  {
  }

  /** The four result lists `_update_single_mod` appends to. */
  class Tracker {
    var updated: seq<string>
    var skipped: seq<string>
    var failed: seq<string>
    var added: seq<string>

    constructor ()
      ensures updated == [] && skipped == [] && failed == [] && added == []
    {
      updated, skipped, failed, added := [], [], [], [];
    }

    /** `_update_single_mod` for one mod of `mod_info`, writing into the mods directory `d`. */
    method UpdateSingleMod(d: Directory, info: Modrinth.ModInfo, t: Transfer, now: int,
                           marks: Marks, removeError: (string, Removal) -> string)
      modifies this, d
      ensures var s := SingleUpdate(old(d.entries), old(d.locked), info, t, now, marks, removeError);
        d.entries == s.entries && d.locked == old(d.locked) &&
        skipped == old(skipped) + Lines(s.skipped) && added == old(added) + Lines(s.added) &&
        updated == old(updated) + Lines(s.updated) && failed == old(failed) + Lines(s.failed)
    {
      var name := info.filename;
      var current := d.Lookup(name);
      if current.Some? {
        if t.head.Err? {
          failed := failed + [FailedLine(marks, info, t.head.error)];
          return;
        }
        if t.head.value == current.value.size {
          skipped := skipped + [Listed(marks, info)];
          return;
        }
        var r := d.Remove(name);
        if !r.Removed? {
          failed := failed + [FailedLine(marks, info, removeError(name, r))];
          return;
        }
        WithoutAbsent(d.entries, name);
      } else {
        added := added + [Listed(marks, info)];
      }
      if t.get.Err? {
        failed := failed + [FailedLine(marks, info, t.get.error)];
        return;
      }
      d.Store(name, t.get.value, now);
      updated := updated + [UpdatedLine(marks, info)];
    }
  }

  /** The four lists after a run of single updates, and the directory then. */
  datatype Outcome = Outcome(updated: seq<string>, skipped: seq<string>, failed: seq<string>, added: seq<string>, entries: seq<Entry>)

  function Updates(entries: seq<Entry>, locked: set<string>, infos: seq<Modrinth.ModInfo>, transfer: Modrinth.ModInfo -> Transfer,
                   now: int, marks: Marks, removeError: (string, Removal) -> string): (o: Outcome)
    ensures |o.updated| + |o.skipped| + |o.failed| == |infos|
    ensures |o.added| <= |infos|
  {
    if infos == [] then Outcome([], [], [], [], entries)
    else
      var before := Updates(entries, locked, infos[..|infos| - 1], transfer, now, marks, removeError);
      var info := infos[|infos| - 1];
      var s := SingleUpdate(before.entries, locked, info, transfer(info), now, marks, removeError);
      Outcome(before.updated + Lines(s.updated), before.skipped + Lines(s.skipped),
              before.failed + Lines(s.failed), before.added + Lines(s.added), s.entries)
  }

  /** The keys of `mod_info` are listed once each, so there are as many as listed. */
  lemma OrderCoversKeys(c: Collected)
    requires WellOrdered(c)
    ensures |c.order| == |c.modInfo|
  {
    DistinctCard(c.order);
    assert (set u | u in c.order) == c.modInfo.Keys;
  }

  lemma {:induction false} DistinctCard<T>(s: seq<T>)
    requires Distinct(s)
    ensures |set x | x in s| == |s|
  {
    if s != [] {
      var init := s[..|s| - 1];
      var x := s[|s| - 1];
      assert Distinct(init);
      DistinctCard(init);
      assert x !in init;
      assert (set y | y in s) == (set y | y in init) + {x};
    }
  }

  /** The infos of `mod_info` in its key order. */
  function InOrder(c: Collected): seq<Modrinth.ModInfo>
    requires WellOrdered(c)
  {
    seq(|c.order|, i requires 0 <= i < |c.order| => c.modInfo[c.order[i]])
  }

  /** One more info appended: the lists grow by what its single update adds. */
  lemma UpdatesStep(entries: seq<Entry>, locked: set<string>, infos: seq<Modrinth.ModInfo>, i: nat,
                    transfer: Modrinth.ModInfo -> Transfer, now: int, marks: Marks, removeError: (string, Removal) -> string)
    requires i < |infos|
    ensures var before := Updates(entries, locked, infos[..i], transfer, now, marks, removeError);
      var s := SingleUpdate(before.entries, locked, infos[i], transfer(infos[i]), now, marks, removeError);
      Updates(entries, locked, infos[..i + 1], transfer, now, marks, removeError) ==
      Outcome(before.updated + Lines(s.updated), before.skipped + Lines(s.skipped),
              before.failed + Lines(s.failed), before.added + Lines(s.added), s.entries)
  {
    assert infos[..i + 1][..i] == infos[..i];
  }

  /** The tracker's lists and the directory are those of `o`. */
  predicate Reached(tracker: Tracker, d: Directory, o: Outcome)
    reads tracker, d
  {
    tracker.updated == o.updated && tracker.skipped == o.skipped && tracker.failed == o.failed &&
    tracker.added == o.added && d.entries == o.entries
  }

  /**
   * The download stage: `_update_single_mod` for every entry of `mod_info`,
   * one after another (the code gathers them concurrently).
   */
  method UpdateAll(tracker: Tracker, d: Directory, c: Collected, transfer: Modrinth.ModInfo -> Transfer, now: int,
                   marks: Marks, removeError: (string, Removal) -> string)
    requires WellOrdered(c)
    requires tracker.updated == [] && tracker.skipped == [] && tracker.failed == [] && tracker.added == []
    modifies tracker, d
    ensures Reached(tracker, d, Updates(old(d.entries), old(d.locked), InOrder(c), transfer, now, marks, removeError))
    ensures d.locked == old(d.locked)
  {
    var infos := InOrder(c);
    var entries, locked := d.entries, d.locked;
    for i := 0 to |infos|
      invariant d.locked == locked
      invariant Reached(tracker, d, Updates(entries, locked, infos[..i], transfer, now, marks, removeError))
    {
      UpdatesStep(entries, locked, infos, i, transfer, now, marks, removeError);
      tracker.UpdateSingleMod(d, infos[i], transfer(infos[i]), now, marks, removeError);
    }
    assert infos[..|infos|] == infos;
  }
}
