/** The registry's history: what the validator reports, and what publishing does to it. */
module Registry {
  import opened Wrappers
  import opened Text
  import opened Sorting

  /** A strict MAJOR.MINOR.PATCH version. */
  datatype Version = Version(major: nat, minor: nat, patch: nat)

  /** One published version; `details` is everything else the entry says. */
  datatype Entry = Entry(id: string, version: Version, details: string)

  predicate Less(a: Version, b: Version) {
    if a.major != b.major then a.major < b.major
    else if a.minor != b.minor then a.minor < b.minor
    else a.patch < b.patch
  }

  function Show(v: Version): string {
    Decimal(v.major) + "." + Decimal(v.minor) + "." + Decimal(v.patch)
  }

  /** The key under which the validator remembers a published version. */
  function Pair(e: Entry): string {
    e.id + "@" + Show(e.version)
  }

  predicate SamePair(a: Entry, b: Entry) {
    a.id == b.id && a.version == b.version
  }

  // --- the pair key is injective -----------------------------------------------------

  lemma BeforeFirst(s: string, a: string, b: string, c: char)
    requires c !in a && s == a + [c] + b
    ensures |a| < |s| && s[|a|] == c && (forall i :: 0 <= i < |a| ==> s[i] != c) && s[..|a|] == a && s[|a| + 1..] == b
  {
    assert forall i :: 0 <= i < |a| ==> s[i] == a[i];
  }

  lemma SplitAtFirst(a: string, b: string, a': string, b': string, c: char)
    requires c !in a && c !in a' && a + [c] + b == a' + [c] + b'
    ensures a == a' && b == b'
  {
    BeforeFirst(a + [c] + b, a, b, c);
    BeforeFirst(a + [c] + b, a', b', c);
  }

  lemma AfterLast(s: string, a: string, b: string, c: char)
    requires c !in b && s == a + [c] + b
    ensures |a| < |s| && s[|a|] == c && (forall i :: |a| < i < |s| ==> s[i] != c) && s[..|a|] == a && s[|a| + 1..] == b
  {
    assert forall i :: |a| < i < |s| ==> s[i] == b[i - |a| - 1];
  }

  lemma SplitAtLast(a: string, b: string, a': string, b': string, c: char)
    requires c !in b && c !in b' && a + [c] + b == a' + [c] + b'
    ensures a == a' && b == b'
  {
    AfterLast(a + [c] + b, a, b, c);
    AfterLast(a + [c] + b, a', b', c);
  }

  lemma ShowInjective(v: Version, w: Version)
    requires Show(v) == Show(w)
    ensures v == w
  {
    var rest, rest' := Decimal(v.minor) + "." + Decimal(v.patch), Decimal(w.minor) + "." + Decimal(w.patch);
    assert Show(v) == Decimal(v.major) + "." + rest && Show(w) == Decimal(w.major) + "." + rest';
    SplitAtFirst(Decimal(v.major), rest, Decimal(w.major), rest', '.');
    SplitAtFirst(Decimal(v.minor), Decimal(v.patch), Decimal(w.minor), Decimal(w.patch), '.');
    DecimalInjective(v.major, w.major);
    DecimalInjective(v.minor, w.minor);
    DecimalInjective(v.patch, w.patch);
  }

  lemma ShowHasNoAt(v: Version)
    ensures '@' !in Show(v)
  {
  }

  /** Whatever characters ids contain, two entries share a key only if they share id and version. */
  lemma PairExactly(a: Entry, b: Entry)
    ensures Pair(a) == Pair(b) <==> SamePair(a, b)
  {
    if Pair(a) == Pair(b) {
      ShowHasNoAt(a.version);
      ShowHasNoAt(b.version);
      SplitAtLast(a.id, Show(a.version), b.id, Show(b.version), '@');
      ShowInjective(a.version, b.version);
    }
  }

  // --- the validator ---------------------------------------------------------------------

  datatype Problem =
    /** Entry `at` repeats the pair first published at `first`. */
    | Duplicate(at: nat, first: nat)
    /** Entry `at` is older than the newest earlier version of its id, at `highest`. */
    | Descending(at: nat, highest: nat)
    /** Entry `at` does not follow the previous entry of its id, at `last`. */
    | Scattered(at: nat, last: nat)

  predicate IsFirstOfPair(apps: seq<Entry>, i: nat, j: nat)
    requires i <= |apps|
  {
    j < i && forall k :: 0 <= k < j ==> !SamePair(apps[k], apps[j])
  }

  /** Among the entries before `i`, `j` is the first with the newest version of its id. */
  predicate IsHighest(apps: seq<Entry>, i: nat, j: nat)
    requires i <= |apps|
  {
    && j < i
    && (forall k :: 0 <= k < i && apps[k].id == apps[j].id ==> !Less(apps[j].version, apps[k].version))
    && (forall k :: 0 <= k < j && apps[k].id == apps[j].id ==> Less(apps[k].version, apps[j].version))
  }

  predicate IsLast(apps: seq<Entry>, i: nat, j: nat)
    requires i <= |apps|
  {
    j < i && forall k :: j < k < i ==> apps[k].id != apps[j].id
  }

  /** What each problem means. */
  predicate Real(apps: seq<Entry>, p: Problem) {
    && p.at < |apps|
    && match p
       case Duplicate(i, j) => IsFirstOfPair(apps, i, j) && SamePair(apps[i], apps[j])
       case Descending(i, j) => IsHighest(apps, i, j) && apps[i].id == apps[j].id
         && Less(apps[i].version, apps[j].version)
       case Scattered(i, j) => IsLast(apps, i, j) && apps[i].id == apps[j].id && j + 1 != i
  }

  /** The order the registry promises: one id's entries side by side, each newer than the one before. */
  predicate InOrder(apps: seq<Entry>) {
    forall i, j :: 0 <= i < j < |apps| && apps[i].id == apps[j].id ==>
      Less(apps[i].version, apps[j].version) && forall k :: i < k < j ==> apps[k].id == apps[i].id
  }

  predicate PairsRemembered(apps: seq<Entry>, i: nat, pairs: map<string, nat>)
    requires i <= |apps|
  {
    && (forall k :: 0 <= k < i ==> Pair(apps[k]) in pairs)
    && (forall key :: key in pairs ==> IsFirstOfPair(apps, i, pairs[key]) && key == Pair(apps[pairs[key]]))
  }

  predicate HighestRemembered(apps: seq<Entry>, i: nat, highest: map<string, (Version, nat)>)
    requires i <= |apps|
  {
    && (forall k :: 0 <= k < i ==> apps[k].id in highest)
    && (forall id :: id in highest ==>
          IsHighest(apps, i, highest[id].1) && apps[highest[id].1].id == id
            && apps[highest[id].1].version == highest[id].0)
  }

  predicate LastRemembered(apps: seq<Entry>, i: nat, last: map<string, nat>)
    requires i <= |apps|
  {
    && (forall k :: 0 <= k < i ==> apps[k].id in last)
    && (forall id :: id in last ==> IsLast(apps, i, last[id]) && apps[last[id]].id == id)
  }

  /** Exactly the real problems of the first `i` entries. */
  ghost predicate Reported(apps: seq<Entry>, i: nat, problems: seq<Problem>) {
    forall p: Problem :: p in problems <==> p.at < i && Real(apps, p)
  }

  /** The problems of entry `i`. */
  ghost predicate ProblemsAt(apps: seq<Entry>, i: nat, found: seq<Problem>)
    requires i < |apps|
  {
    forall p: Problem :: p in found <==> p.at == i && Real(apps, p)
  }

  lemma PairStep(apps: seq<Entry>, i: nat, pairs: map<string, nat>)
    requires i < |apps| && PairsRemembered(apps, i, pairs)
    ensures var key := Pair(apps[i]);
            && PairsRemembered(apps, i + 1, if key in pairs then pairs else pairs[key := i])
            && (forall j: nat :: Real(apps, Duplicate(i, j)) <==> key in pairs && j == pairs[key])
  {
    hide Pair;
    forall k, j | 0 <= k < |apps| && 0 <= j < |apps|
      ensures Pair(apps[k]) == Pair(apps[j]) <==> SamePair(apps[k], apps[j])
    {
      PairExactly(apps[k], apps[j]);
    }
  }

  lemma HighestStep(apps: seq<Entry>, i: nat, highest: map<string, (Version, nat)>)
    requires i < |apps| && HighestRemembered(apps, i, highest)
    ensures var e := apps[i];
            && HighestRemembered(apps, i + 1,
                 if e.id in highest && !Less(highest[e.id].0, e.version) then highest
                   else highest[e.id := (e.version, i)])
            && (forall j: nat :: Real(apps, Descending(i, j)) <==>
                  e.id in highest && Less(e.version, highest[e.id].0) && j == highest[e.id].1)
  {
  }

  lemma LastStep(apps: seq<Entry>, i: nat, last: map<string, nat>)
    requires i < |apps| && LastRemembered(apps, i, last)
    ensures LastRemembered(apps, i + 1, last[apps[i].id := i])
    ensures forall j: nat :: Real(apps, Scattered(i, j)) <==> apps[i].id in last && j == last[apps[i].id] && j + 1 != i
  {
  }

  lemma ReportStep(apps: seq<Entry>, i: nat, problems: seq<Problem>, found: seq<Problem>)
    requires i < |apps| && Reported(apps, i, problems) && ProblemsAt(apps, i, found)
    ensures Reported(apps, i + 1, problems + found)
  {
    hide Real;
  }

  /** The three rules' findings at one entry are all there is to find. */
  lemma AllRules(apps: seq<Entry>, i: nat, repeated: seq<Problem>, older: seq<Problem>, apart: seq<Problem>)
    requires i < |apps|
    requires forall p :: p in repeated ==> p.Duplicate? && p.at == i
    requires forall p :: p in older ==> p.Descending? && p.at == i
    requires forall p :: p in apart ==> p.Scattered? && p.at == i
    requires forall j: nat :: Duplicate(i, j) in repeated <==> Real(apps, Duplicate(i, j))
    requires forall j: nat :: Descending(i, j) in older <==> Real(apps, Descending(i, j))
    requires forall j: nat :: Scattered(i, j) in apart <==> Real(apps, Scattered(i, j))
    ensures ProblemsAt(apps, i, repeated + older + apart)
  {
    hide Real;
    forall p: Problem | p.at == i
      ensures p in repeated + older + apart <==> Real(apps, p)
    {
      match p
      case Duplicate(_, j) => assert Duplicate(i, j) in repeated <==> Real(apps, p);
      case Descending(_, j) => assert Descending(i, j) in older <==> Real(apps, p);
      case Scattered(_, j) => assert Scattered(i, j) in apart <==> Real(apps, p);
    }
  }

  method CheckPair(apps: seq<Entry>, i: nat, pairs: map<string, nat>)
    returns (found: seq<Problem>, pairs': map<string, nat>)
    requires i < |apps| && PairsRemembered(apps, i, pairs)
    ensures PairsRemembered(apps, i + 1, pairs')
    ensures forall p :: p in found ==> p.Duplicate? && p.at == i
    ensures forall j: nat :: Duplicate(i, j) in found <==> Real(apps, Duplicate(i, j))
  {
    PairStep(apps, i, pairs);
    hide Real;
    hide PairsRemembered;
    var pair := Pair(apps[i]);
    if pair in pairs {
      found, pairs' := [Duplicate(i, pairs[pair])], pairs;
    } else {
      found, pairs' := [], pairs[pair := i];
    }
  }

  method CheckAscending(apps: seq<Entry>, i: nat, highest: map<string, (Version, nat)>)
    returns (found: seq<Problem>, highest': map<string, (Version, nat)>)
    requires i < |apps| && HighestRemembered(apps, i, highest)
    ensures HighestRemembered(apps, i + 1, highest')
    ensures forall p :: p in found ==> p.Descending? && p.at == i
    ensures forall j: nat :: Descending(i, j) in found <==> Real(apps, Descending(i, j))
  {
    HighestStep(apps, i, highest);
    hide Real;
    hide HighestRemembered;
    var entry := apps[i];
    found, highest' := [], highest;
    if entry.id in highest {
      if Less(entry.version, highest[entry.id].0) {
        found := [Descending(i, highest[entry.id].1)];
      } else if Less(highest[entry.id].0, entry.version) {
        highest' := highest[entry.id := (entry.version, i)];
      }
    } else {
      highest' := highest[entry.id := (entry.version, i)];
    }
  }

  method CheckContiguous(apps: seq<Entry>, i: nat, last: map<string, nat>)
    returns (found: seq<Problem>, last': map<string, nat>)
    requires i < |apps| && LastRemembered(apps, i, last)
    ensures LastRemembered(apps, i + 1, last')
    ensures forall p :: p in found ==> p.Scattered? && p.at == i
    ensures forall j: nat :: Scattered(i, j) in found <==> Real(apps, Scattered(i, j))
  {
    LastStep(apps, i, last);
    hide Real;
    hide LastRemembered;
    var id := apps[i].id;
    found := if id in last && last[id] + 1 != i then [Scattered(i, last[id])] else [];
    last' := last[id := i];
  }

  /** One pass over the list reports exactly the real problems; there are none exactly when the registry is in order. */
  method CheckRegistrySemantics(apps: seq<Entry>) returns (problems: seq<Problem>)
    ensures forall p: Problem :: p in problems <==> Real(apps, p)
    ensures problems == [] <==> InOrder(apps)
  {
    problems := [];
    var seenPairs: map<string, nat> := map[];
    var highestForId: map<string, (Version, nat)> := map[];
    var idLastSeenAt: map<string, nat> := map[];
    hide PairsRemembered;
    hide HighestRemembered;
    hide LastRemembered;
    hide Real;
    NothingRemembered(apps);
    for i := 0 to |apps|
      invariant PairsRemembered(apps, i, seenPairs)
      invariant HighestRemembered(apps, i, highestForId)
      invariant LastRemembered(apps, i, idLastSeenAt)
      invariant Reported(apps, i, problems)
    {
      var repeated, older, apart;
      repeated, seenPairs := CheckPair(apps, i, seenPairs);
      older, highestForId := CheckAscending(apps, i, highestForId);
      apart, idLastSeenAt := CheckContiguous(apps, i, idLastSeenAt);
      AllRules(apps, i, repeated, older, apart);
      ReportStep(apps, i, problems, repeated + older + apart);
      problems := problems + (repeated + older + apart);
    }
    RealIsWithin(apps);
    CleanMeansInOrder(apps);
    hide InOrder;
    EmptyMeansNone(apps, problems);
  }

  lemma NothingRemembered(apps: seq<Entry>)
    ensures PairsRemembered(apps, 0, map[]) && HighestRemembered(apps, 0, map[]) && LastRemembered(apps, 0, map[])
    ensures Reported(apps, 0, [])
  {
  }

  lemma RealIsWithin(apps: seq<Entry>)
    ensures forall p: Problem :: Real(apps, p) ==> p.at < |apps|
  {
  }

  lemma EmptyMeansNone(apps: seq<Entry>, problems: seq<Problem>)
    requires forall p: Problem :: p in problems <==> Real(apps, p)
    ensures problems == [] <==> forall p: Problem :: !Real(apps, p)
  {
    hide Real;
    if problems != [] {
      assert problems[0] in problems;
    }
  }

  // --- no problems means in order -------------------------------------------------------

  lemma InOrderMeansClean(apps: seq<Entry>, p: Problem)
    requires InOrder(apps)
    ensures !Real(apps, p)
  {
    if p.Scattered? && p.last + 1 < p.at < |apps| && apps[p.at].id == apps[p.last].id {
      assert apps[p.last + 1].id == apps[p.last].id;
    }
  }

  /** The last entry of an id before `i`. */
  lemma {:induction false} LastExists(apps: seq<Entry>, i: nat, k: nat) returns (j: nat)
    requires k < i <= |apps|
    ensures k <= j && IsLast(apps, i, j) && apps[j].id == apps[k].id
    decreases i
  {
    if apps[i - 1].id == apps[k].id {
      j := i - 1;
    } else {
      j := LastExists(apps, i - 1, k);
    }
  }

  lemma {:induction false} FirstExists(apps: seq<Entry>, i: nat, k: nat) returns (j: nat)
    requires k < i <= |apps|
    ensures IsFirstOfPair(apps, i, j) && SamePair(apps[j], apps[k])
    decreases k
  {
    if f: nat :| f < k && SamePair(apps[f], apps[k]) {
      j := FirstExists(apps, i, f);
    } else {
      j := k;
    }
  }

  lemma {:induction false} HighestExists(apps: seq<Entry>, i: nat, k: nat) returns (j: nat)
    requires k < i <= |apps|
    ensures IsHighest(apps, i, j) && apps[j].id == apps[k].id
    decreases i
  {
    if i == k + 1 && forall m :: 0 <= m < k ==> apps[m].id != apps[k].id {
      j := k;
    } else {
      var m: nat;
      if k < i - 1 {
        m := k;
      } else {
        m :| m < k && apps[m].id == apps[k].id;
      }
      var h := HighestExists(apps, i - 1, m);
      j := if apps[i - 1].id == apps[k].id && Less(apps[h].version, apps[i - 1].version) then i - 1 else h;
    }
  }

  lemma {:induction false} CleanMeansSideBySide(apps: seq<Entry>, i: nat, j: nat)
    requires forall p: Problem :: !Real(apps, p)
    requires i < j < |apps| && apps[i].id == apps[j].id
    ensures forall k :: i < k < j ==> apps[k].id == apps[i].id
    decreases j
  {
    var l := LastExists(apps, j, i);
    assert !Real(apps, Scattered(j, l));
    if i < l {
      CleanMeansSideBySide(apps, i, l);
    }
  }

  lemma CleanMeansAscending(apps: seq<Entry>, i: nat, j: nat)
    requires forall p: Problem :: !Real(apps, p)
    requires i < j < |apps| && apps[i].id == apps[j].id
    ensures Less(apps[i].version, apps[j].version)
  {
    var h := HighestExists(apps, j, i);
    assert !Real(apps, Descending(j, h));
    var f := FirstExists(apps, j, i);
    assert !Real(apps, Duplicate(j, f));
  }

  /** No problem anywhere means the entries are in order, and the other way round. */
  lemma CleanMeansInOrder(apps: seq<Entry>)
    ensures (forall p: Problem :: !Real(apps, p)) <==> InOrder(apps)
  {
    if InOrder(apps) {
      forall p: Problem
        ensures !Real(apps, p)
      {
        InOrderMeansClean(apps, p);
      }
    } else if forall p: Problem :: !Real(apps, p) {
      forall i, j | 0 <= i < j < |apps| && apps[i].id == apps[j].id
        ensures Less(apps[i].version, apps[j].version) && forall k :: i < k < j ==> apps[k].id == apps[i].id
      {
        CleanMeansSideBySide(apps, i, j);
        CleanMeansAscending(apps, i, j);
      }
      assert false;
    }
  }

  // --- publishing ---------------------------------------------------------------------------

  /** The order a publish sorts into: by id, one id's versions ascending. */
  predicate ComesBefore(a: Entry, b: Entry) {
    if a.id != b.id then JsBefore(a.id, b.id) else Less(a.version, b.version)
  }

  datatype Contents = NotJson | NoApps | Index(schemaVersion: Option<nat>, apps: seq<Entry>)

  datatype Refusal = Unreadable | MissingApps | AlreadyPublished

  /** No version is published twice. */
  ghost predicate PairsDistinct(apps: seq<Entry>) {
    NoneAlike(SamePair, apps)
  }

  class RegistryFile {
    var contents: Contents

    constructor (contents: Contents)
      ensures this.contents == contents
    {
      this.contents := contents;
    }

    /**
     * Refused exactly when the file cannot be read as an index or has the same id and
     * version already. Otherwise the file becomes the old entries and the new one, sorted,
     * unless this is a dry run; `warned` when the id already has a newer version.
     */
    method MergeIntoRegistry(entry: Entry, dryRun: bool) returns (refusal: Option<Refusal>, warned: bool)
      modifies this
      ensures refusal == match old(contents)
                case NotJson => Some(Unreadable)
                case NoApps => Some(MissingApps)
                case Index(_, apps) =>
                  if exists i :: 0 <= i < |apps| && SamePair(apps[i], entry) then Some(AlreadyPublished) else None
      ensures refusal.Some? || dryRun ==> contents == old(contents)
      ensures refusal.None? && !dryRun ==>
                contents == Index(
                  if old(contents).schemaVersion.Some? then old(contents).schemaVersion else Some(1),
                  Sort(ComesBefore, old(contents).apps + [entry]))
      ensures refusal.None? ==>
                (warned <==> exists i :: 0 <= i < |old(contents).apps|
                               && old(contents).apps[i].id == entry.id
                                  && Less(entry.version, old(contents).apps[i].version))
    {
      warned := false;
      if contents.NotJson? {
        return Some(Unreadable), false;
      }
      if contents.NoApps? {
        return Some(MissingApps), false;
      }
      var apps := contents.apps;
      for i := 0 to |apps|
        invariant forall k :: 0 <= k < i ==> !SamePair(apps[k], entry)
      {
        if SamePair(apps[i], entry) {
          return Some(AlreadyPublished), false;
        }
      }
      warned := NewerExists(apps, entry);
      var schemaVersion := if contents.schemaVersion.Some? then contents.schemaVersion else Some(1);
      apps := apps + [entry];
      apps := Sort(ComesBefore, apps);
      if !dryRun {
        contents := Index(schemaVersion, apps);
      }
      refusal := None;
    }

    /** Compare with the newest version of the same id. */
    static method NewerExists(apps: seq<Entry>, entry: Entry) returns (newer: bool)
      ensures newer <==> exists i :: 0 <= i < |apps| && apps[i].id == entry.id && Less(entry.version, apps[i].version)
    {
      var same: seq<Entry> := [];
      for i := 0 to |apps|
        invariant forall e :: e in same <==> e in apps[..i] && e.id == entry.id
      {
        assert apps[..i + 1] == apps[..i] + [apps[i]];
        if apps[i].id == entry.id {
          same := same + [apps[i]];
        }
      }
      assert apps[..|apps|] == apps;
      NewestFirst(same);
      var sorted := Sort(NewerFirst, same);
      newer := |sorted| > 0 && Less(entry.version, sorted[0].version);
    }
  }

  predicate NewerFirst(a: Entry, b: Entry) {
    Less(b.version, a.version)
  }

  lemma NewestFirst(apps: seq<Entry>)
    ensures var s := Sort(NewerFirst, apps);
            && (s == [] <==> apps == [])
            && (s != [] ==> s[0] in apps && forall e :: e in apps ==> !Less(s[0].version, e.version))
  {
    assert IsOrder(NewerFirst);
    SortSorted(NewerFirst, apps);
    var s := Sort(NewerFirst, apps);
    SameElements(s, apps);
    if s != [] {
      forall e | e in apps
        ensures !Less(s[0].version, e.version)
      {
        var i :| 0 <= i < |s| && s[i] == e;
        assert i > 0 ==> !NewerFirst(s[i], s[0]);
      }
    }
  }

  lemma ComesBeforeIsOrder()
    ensures IsOrder(ComesBefore)
  {
    forall a, b | ComesBefore(a, b)
      ensures !ComesBefore(b, a)
    {
      if a.id != b.id {
        BeforeAsymmetric(Utf16Rank, a.id, b.id);
      }
    }
    forall a, b, c | ComesBefore(a, c)
      ensures ComesBefore(a, b) || ComesBefore(b, c)
    {
      if a.id != c.id {
        BeforeSeparates(Utf16Rank, a.id, b.id, c.id);
      } else if a.id != b.id {
        RanksInjective();
        BeforeTotal(Utf16Rank, a.id, b.id);
      }
    }
  }

  lemma SortedIsInOrder(s: seq<Entry>)
    requires Sorted(ComesBefore, s) && PairsDistinct(s)
    ensures InOrder(s)
  {
    forall i, j | 0 <= i < j < |s| && s[i].id == s[j].id
      ensures Less(s[i].version, s[j].version) && forall k :: i < k < j ==> s[k].id == s[i].id
    {
      assert !ComesBefore(s[j], s[i]) && !SamePair(s[i], s[j]);
      forall k | i < k < j
        ensures s[k].id == s[i].id
      {
        assert !ComesBefore(s[k], s[i]) && !ComesBefore(s[j], s[k]);
        if s[k].id != s[i].id {
          RanksInjective();
          BeforeTotal(Utf16Rank, s[i].id, s[k].id);
        }
      }
    }
  }

  /**
   * From an index without repeated versions, an accepted merge keeps every old entry and
   * adds the new one, and the validator finds nothing wrong with the result.
   */
  lemma MergedIsInOrder(apps: seq<Entry>, entry: Entry)
    requires PairsDistinct(apps) && forall i :: 0 <= i < |apps| ==> !SamePair(apps[i], entry)
    ensures var merged := Sort(ComesBefore, apps + [entry]);
            && multiset(merged) == multiset(apps) + multiset{entry}
            && PairsDistinct(merged) && InOrder(merged) && Sorted(ComesBefore, merged)
            && forall p: Problem :: !Real(merged, p)
  {
    var all := apps + [entry];
    var merged := Sort(ComesBefore, all);
    StillDistinct(apps, entry);
    hide *;
    assert multiset(merged) == multiset(all) == multiset(apps) + multiset{entry};
    SortNoneAlike(ComesBefore, SamePair, all);
    DistinctMeansUnlike(merged);
    ComesBeforeIsOrder();
    SortSorted(ComesBefore, all);
    SortedIsInOrder(merged);
    CleanMeansInOrder(merged);
  }

  lemma StillDistinct(apps: seq<Entry>, entry: Entry)
    requires PairsDistinct(apps) && forall i :: 0 <= i < |apps| ==> !SamePair(apps[i], entry)
    ensures PairsDistinct(apps + [entry]) && NoneAlike(SamePair, apps + [entry])
  {
  }

  lemma DistinctMeansUnlike(apps: seq<Entry>)
    ensures PairsDistinct(apps) <==> NoneAlike(SamePair, apps)
  {
  }

  /** A registry that is in order has no repeated versions, so it can be published to again and again. */
  lemma InOrderMeansDistinct(apps: seq<Entry>)
    requires InOrder(apps)
    ensures PairsDistinct(apps)
  {
  }

  /** Publishing to a registry that is in order leaves it in order, whatever was published before. */
  lemma PublishedStaysInOrder(apps: seq<Entry>, entry: Entry)
    requires InOrder(apps) && forall i :: 0 <= i < |apps| ==> !SamePair(apps[i], entry)
    ensures InOrder(Sort(ComesBefore, apps + [entry]))
  {
    InOrderMeansDistinct(apps);
    MergedIsInOrder(apps, entry);
    hide *;
  }

  lemma PairsSeparate(apps: seq<Entry>)
    requires PairsDistinct(apps)
    ensures Separates(ComesBefore, apps)
  {
    forall x, y | x in apps && y in apps && x != y
      ensures ComesBefore(x, y) || ComesBefore(y, x)
    {
      var i :| 0 <= i < |apps| && apps[i] == x;
      var j :| 0 <= j < |apps| && apps[j] == y;
      assert i < j || j < i;
      if x.id != y.id {
        RanksInjective();
        BeforeTotal(Utf16Rank, x.id, y.id);
      }
    }
  }

  /** Two versions published in either order leave the same index. */
  lemma PublishingCommutes(apps: seq<Entry>, a: Entry, b: Entry)
    requires PairsDistinct(apps + [a] + [b])
    ensures Sort(ComesBefore, Sort(ComesBefore, apps + [a]) + [b])
            == Sort(ComesBefore, Sort(ComesBefore, apps + [b]) + [a])
  {
    var all := apps + [a] + [b];
    var left, right := Sort(ComesBefore, apps + [a]) + [b], Sort(ComesBefore, apps + [b]) + [a];
    PairsSeparate(all);
    ComesBeforeIsOrder();
    assert multiset(left) == multiset(all) == multiset(right);
    hide *;
    SortUnique(ComesBefore, all, left);
    SortUnique(ComesBefore, all, right);
  }
}
