/** The bounded scan of a virtualenv for extension tags, and what the platform report says of it. */
module AbiScan {
  import opened Collections
  import opened Common
  import opened ExtensionTags

  const SCAN_BUDGET := 40000

  datatype Tree = Dir(name: string, files: seq<string>, subdirs: seq<Tree>)

  /** One directory that os.walk yields. */
  datatype Visit = Visit(path: string, files: seq<string>)

  datatype Entry = Entry(path: string, name: string)

  /** os.walk top down; __pycache__ is pruned from the directories it goes on to. */
  function Walk(t: Tree, path: string): seq<Visit>
    decreases t
  {
    [Visit(path, t.files)] + WalkAll(t.subdirs, path)
  }

  function WalkAll(subdirs: seq<Tree>, path: string): seq<Visit>
    decreases subdirs
  {
    if subdirs == [] then []
    else
      (if subdirs[0].name == "__pycache__" then [] else Walk(subdirs[0], path + "/" + subdirs[0].name))
      + WalkAll(subdirs[1..], path)
  }

  function FilesOf(v: Visit): (entries: seq<Entry>)
    ensures |entries| == |v.files|
    ensures forall i :: 0 <= i < |entries| ==> entries[i] == Entry(v.path, v.files[i])
  {
    seq(|v.files|, i requires 0 <= i < |v.files| => Entry(v.path, v.files[i]))
  }

  /** Every file below the roots, in scan order. */
  function Entries(roots: seq<Tree>): seq<Entry> {
    FlatMap(FlatMap(roots, (t: Tree) => Walk(t, t.name)), FilesOf)
  }

  function PlatformOf(d: Digits, e: Entry): Option<string> {
    match ExtensionAbi(d, e.name)
    case None => None
    case Some(tag) => Some(tag.platform)
  }

  predicate Tagged(d: Digits, platform: string, e: Entry) {
    PlatformOf(d, e) == Some(platform)
  }

  /** `counts` and `samples` together. */
  datatype Tally = Tally(counts: map<string, nat>, samples: map<string, Entry>)

  function Note(d: Digits, t: Tally, e: Entry): Tally {
    match PlatformOf(d, e)
    case None => t
    case Some(platform) =>
      Tally(t.counts[platform := (if platform in t.counts then t.counts[platform] else 0) + 1],
            if platform in t.samples then t.samples else t.samples[platform := e])
  }

  function TallyOf(d: Digits, entries: seq<Entry>): Tally {
    if entries == [] then Tally(map[], map[])
    else Note(d, TallyOf(d, entries[..|entries| - 1]), entries[|entries| - 1])
  }

  function WithinBudget(entries: seq<Entry>): seq<Entry> {
    if |entries| <= SCAN_BUDGET then entries else entries[..SCAN_BUDGET]
  }

  lemma TallyStep(d: Digits, entries: seq<Entry>, k: nat)
    requires k < |entries|
    ensures TallyOf(d, entries[..k + 1]) == Note(d, TallyOf(d, entries[..k]), entries[k])
  {
    assert entries[..k + 1][..k] == entries[..k];
  }

  lemma FirstVisits(visits: seq<Visit>, v: nat)
    requires v < |visits|
    ensures FlatMap(visits[..v + 1], FilesOf) == FlatMap(visits[..v], FilesOf) + FilesOf(visits[v])
    ensures FlatMap(visits[..v + 1], FilesOf) <= FlatMap(visits, FilesOf)
  {
    FirstParts(visits, v, FilesOf);
    FirstPart(visits, v + 1, FilesOf);
  }

  lemma FirstPart<S, T>(s: seq<S>, n: nat, f: S -> seq<T>)
    requires n <= |s|
    ensures FlatMap(s[..n], f) <= FlatMap(s, f)
  {
    assert s == s[..n] + s[n..];
    FlatMapAppend(s[..n], s[n..], f);
  }

  lemma FirstParts<S, T>(s: seq<S>, n: nat, f: S -> seq<T>)
    requires n < |s|
    ensures FlatMap(s[..n + 1], f) == FlatMap(s[..n], f) + f(s[n])
  {
    assert s[..n + 1] == s[..n] + [s[n]];
    FlatMapAppend(s[..n], [s[n]], f);
    FlatMapOne(s[n], f);
  }

  /** What the scan does with one file within the budget. */
  method Record(d: Digits, before: Tally, e: Entry) returns (after: Tally)
    ensures after == Note(d, before, e)
  {
    var parsed := ExtensionAbi(d, e.name);
    if parsed.None? { return before; }
    var platform := parsed.value.platform;
    var count := if platform in before.counts then before.counts[platform] else 0;
    after := before.(counts := before.counts[platform := count + 1]);
    if platform !in after.samples { after := after.(samples := after.samples[platform := e]); }
  }

  /** The loop over one directory's files, after `before`; `full` says that the budget was exceeded. */
  method ScanFiles(d: Digits, visit: Visit, ghost before: seq<Entry>, start: Tally, startSeen: nat)
    returns (tally: Tally, seen: nat, full: bool)
    requires startSeen == |before| <= SCAN_BUDGET && start == TallyOf(d, before)
    ensures full <==> |before| + |visit.files| > SCAN_BUDGET
    ensures !full ==> seen == |before + FilesOf(visit)| && tally == TallyOf(d, before + FilesOf(visit))
    ensures full ==> tally == TallyOf(d, (before + FilesOf(visit))[..SCAN_BUDGET])
  {
    tally, seen := start, startSeen;
    ghost var all := before + FilesOf(visit);
    var f := 0;
    assert all[..|before|] == before;
    while f < |visit.files|
      invariant 0 <= f <= |visit.files|
      invariant seen == |before| + f <= SCAN_BUDGET
      invariant tally == TallyOf(d, all[..|before| + f])
    {
      var name := visit.files[f];
      assert all[|before| + f] == Entry(visit.path, name);
      seen := seen + 1;
      if seen > SCAN_BUDGET { return tally, seen, true; }
      tally := Record(d, tally, Entry(visit.path, name));
      TallyStep(d, all, |before| + f);
      f := f + 1;
    }
    assert all[..|before| + f] == all;
    full := false;
  }

  /** The scan stops at the file after the budget; what it returns is the tally of the first 40000 files. */
  method ScanVenvAbis(d: Digits, roots: seq<Tree>) returns (tally: Tally)
    ensures tally == TallyOf(d, WithinBudget(Entries(roots)))
  {
    tally := Tally(map[], map[]);
    var seen, full := 0, false;
    var visits := FlatMap(roots, (t: Tree) => Walk(t, t.name));
    var v := 0;
    while v < |visits|
      invariant 0 <= v <= |visits|
      invariant seen == |FlatMap(visits[..v], FilesOf)| <= SCAN_BUDGET
      invariant tally == TallyOf(d, FlatMap(visits[..v], FilesOf))
    {
      ghost var before := FlatMap(visits[..v], FilesOf);
      FirstVisits(visits, v);
      tally, seen, full := ScanFiles(d, visits[v], before, tally, seen);
      if full {
        assert before + FilesOf(visits[v]) <= Entries(roots);
        assert Entries(roots)[..SCAN_BUDGET] == (before + FilesOf(visits[v]))[..SCAN_BUDGET];
        return;
      }
      v := v + 1;
    }
    assert visits[..v] == visits;
  }

  // ----- what the tally says -----

  predicate FirstTagged(d: Digits, platform: string, entries: seq<Entry>, i: nat) {
    && i < |entries| && Tagged(d, platform, entries[i])
    && forall j :: 0 <= j < i ==> !Tagged(d, platform, entries[j])
  }

  lemma NoteCounts(d: Digits, t: Tally, e: Entry, platform: string)
    ensures var counts := Note(d, t, e).counts;
            && (platform in counts <==> platform in t.counts || Tagged(d, platform, e))
            && (platform in counts ==>
                  counts[platform] == (if platform in t.counts then t.counts[platform] else 0)
                                      + if Tagged(d, platform, e) then 1 else 0)
  {
  }

  lemma NoteSamples(d: Digits, t: Tally, e: Entry, platform: string)
    ensures var samples := Note(d, t, e).samples;
            && (platform in samples <==> platform in t.samples || Tagged(d, platform, e))
            && (platform in samples ==> samples[platform] == if platform in t.samples then t.samples[platform] else e)
  {
  }

  predicate SomeTagged(d: Digits, platform: string, entries: seq<Entry>) {
    exists i :: 0 <= i < |entries| && Tagged(d, platform, entries[i])
  }

  lemma SomeTaggedAppend(d: Digits, platform: string, init: seq<Entry>, last: Entry)
    ensures SomeTagged(d, platform, init + [last]) <==> SomeTagged(d, platform, init) || Tagged(d, platform, last)
  {
    var entries := init + [last];
    assert entries[|init|] == last;
    assert forall i :: 0 <= i < |init| ==> entries[i] == init[i];
    if SomeTagged(d, platform, init) {
      var i :| 0 <= i < |init| && Tagged(d, platform, init[i]);
      assert Tagged(d, platform, entries[i]);
    }
  }

  /** A platform is counted exactly when some file carries it, as often as there are such files. */
  lemma {:induction false} TallyCounts(d: Digits, entries: seq<Entry>, platform: string)
    ensures var counts := TallyOf(d, entries).counts;
            && (platform in counts <==> SomeTagged(d, platform, entries))
            && Count(entries, e => Tagged(d, platform, e)) == if platform in counts then counts[platform] else 0
  {
    if entries != [] {
      var init, last := entries[..|entries| - 1], entries[|entries| - 1];
      TallyCounts(d, init, platform);
      NoteCounts(d, TallyOf(d, init), last, platform);
      SomeTaggedAppend(d, platform, init, last);
      assert entries == init + [last];
    }
  }

  /** The sample of a counted platform is the first file that carries it. */
  lemma {:induction false} TallySamples(d: Digits, entries: seq<Entry>, platform: string) returns (first: nat)
    ensures var samples := TallyOf(d, entries).samples;
            && (platform in samples <==> SomeTagged(d, platform, entries))
            && (platform in samples ==>
                  FirstTagged(d, platform, entries, first) && samples[platform] == entries[first])
  {
    first := 0;
    if entries != [] {
      var init, last := entries[..|entries| - 1], entries[|entries| - 1];
      first := TallySamples(d, init, platform);
      NoteSamples(d, TallyOf(d, init), last, platform);
      SomeTaggedAppend(d, platform, init, last);
      assert entries == init + [last];
      if SomeTagged(d, platform, init) { FirstStays(d, platform, init, last, first); }
      else { first := |init|; }
    }
  }

  lemma FirstStays(d: Digits, platform: string, init: seq<Entry>, last: Entry, first: nat)
    requires FirstTagged(d, platform, init, first)
    ensures FirstTagged(d, platform, init + [last], first) && (init + [last])[first] == init[first]
  {
    assert forall i :: 0 <= i < |init| ==> (init + [last])[i] == init[i];
  }

  // ----- part (a) of the report -----

  function ForeignCounts(counts: map<string, nat>, hostPlatform: string): map<string, nat> {
    map platform | platform in counts && hostPlatform != "" && platform != hostPlatform :: counts[platform]
  }

  /** The report names a platform exactly when the host's own is known and differs, and one of the first
      40000 files carries the tag; it gives their number. */
  lemma ReportedExactly(d: Digits, extSuffix: string, roots: seq<Tree>, platform: string)
    ensures var scanned := WithinBudget(Entries(roots));
            var reported := ForeignCounts(TallyOf(d, scanned).counts, HostPlatform(d, extSuffix));
            && (platform in reported <==>
                && HostPlatform(d, extSuffix) != "" && platform != HostPlatform(d, extSuffix)
                && SomeTagged(d, platform, scanned))
            && (platform in reported ==> reported[platform] == Count(scanned, e => Tagged(d, platform, e)))
  {
    TallyCounts(d, WithinBudget(Entries(roots)), platform);
  }

  /** A file printed for another platform within the budget is always reported. */
  lemma PrintedForeignIsReported(d: Digits, extSuffix: string, roots: seq<Tree>, i: nat,
                                 base: string, head: Head, platform: string, suffix: string)
    requires Lawful(d) && head.WellFormed(d) && PrintsPlatform(platform) && suffix in EXT_SUFFIXES
    requires HostPlatform(d, extSuffix) != "" && platform != HostPlatform(d, extSuffix)
    requires i < |Entries(roots)| && i < SCAN_BUDGET
    requires Entries(roots)[i].name == Print(base, head, platform, suffix)
    ensures platform in ForeignCounts(TallyOf(d, WithinBudget(Entries(roots))).counts, HostPlatform(d, extSuffix))
  {
    AbiUndoesPrint(d, base, head, platform, suffix);
    var scanned := WithinBudget(Entries(roots));
    assert Tagged(d, platform, scanned[i]);
    ReportedExactly(d, extSuffix, roots, platform);
  }

  /** A virtualenv whose every file is named with the host's own EXT_SUFFIX, or carries no tag, has
      nothing reported. */
  lemma NativeVenvIsClean(d: Digits, extSuffix: string, roots: seq<Tree>)
    requires Lawful(d)
    requires forall i :: 0 <= i < |Entries(roots)| ==>
               || ExtensionAbi(d, Entries(roots)[i].name).None?
               || exists base :: Entries(roots)[i].name == base + extSuffix
    ensures ForeignCounts(TallyOf(d, WithinBudget(Entries(roots))).counts, HostPlatform(d, extSuffix)) == map[]
  {
    var scanned := WithinBudget(Entries(roots));
    var reported := ForeignCounts(TallyOf(d, scanned).counts, HostPlatform(d, extSuffix));
    forall platform ensures platform !in reported {
      ReportedExactly(d, extSuffix, roots, platform);
      forall i | 0 <= i < |scanned| && HostPlatform(d, extSuffix) != "" && Tagged(d, platform, scanned[i])
        ensures platform == HostPlatform(d, extSuffix)
      {
        assert scanned[i] == Entries(roots)[i];
        var base :| scanned[i].name == base + extSuffix;
        HostFilesAreNative(d, extSuffix, base);
      }
    }
  }
}
