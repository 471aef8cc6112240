/** The registry's strict reader against the package tool: on its own archives, and on arbitrary bytes. */
module ZipAgreement {
  import opened ByteCodec
  import opened Wrappers
  import opened Sorting
  import opened Text
  import opened ZipFormat
  import opened ZipTheorems
  import Lenient = ZipReader
  import opened StrictReader

  // --- the contents of a list of entries as a map ------------------------------------

  /** Later entries win, as in a loop of `files.set`. */
  function AddAll(files: Files, es: seq<ZipEntry>): Files
    decreases |es|
  {
    if es == [] then files else AddAll(files, es[..|es| - 1])[es[|es| - 1].path := es[|es| - 1].data]
  }

  lemma {:induction false} AddAllPaths(files: Files, es: seq<ZipEntry>, path: string)
    ensures path in AddAll(files, es) <==> path in files || exists i :: 0 <= i < |es| && es[i].path == path
    decreases |es|
  {
    if es != [] {
      AddAllPaths(files, es[..|es| - 1], path);
      assert forall i :: 0 <= i < |es| - 1 ==> es[..|es| - 1][i] == es[i];
    }
  }

  function TotalSize(es: seq<ZipEntry>): nat {
    if es == [] then 0 else TotalSize(es[..|es| - 1]) + |es[|es| - 1].data|
  }

  ghost predicate DistinctPaths(es: seq<ZipEntry>) {
    forall i, j :: 0 <= i < j < |es| ==> es[i].path != es[j].path
  }

  /** What the strict reader demands of the files in an archive. */
  ghost predicate Publishable(es: seq<ZipEntry>) {
    && |es| <= MAX_ENTRIES
    && (forall i :: 0 <= i < |es| ==> Portable(es[i].path))
    && DistinctPaths(es)
    && TotalSize(es) <= MAX_PACKAGE_BYTES
  }

  // --- reading what the writer wrote -------------------------------------------------

  /** The strict reader's decision on one entry the writer wrote. */
  lemma StrictReadsLocated(z: Platform, b: Bytes, c: nat, at: nat, m: Member, path: string, data: Bytes, p: Progress)
    requires Located(b, c, at, m) && Holds(z, m, path, data)
    requires p.cursor == c && !Lenient.IsDirectoryPath(path) && at < MAX32
    ensures ReadMember(z, b, p) ==
              if Portable(path) && path !in p.files && p.total + |data| <= MAX_PACKAGE_BYTES
              then Accepted(Progress(p.files[path := data], p.total + |data|, c + m.CentralSize()))
              else Refused
  {
    hide U16LE;
    hide U32LE;
    hide Portable;
    hide Lenient.Subarray;
    InsideSubarray(b, at + 30, at + 30 + |m.name|);
  }

  /** The strict reader's decisions on the first `i` entries: all of them passed. */
  ghost predicate PassedSoFar(es: seq<ZipEntry>, i: nat)
    requires i <= |es|
  {
    i == 0 || (PassedSoFar(es, i - 1) && Portable(es[i - 1].path)
               && es[i - 1].path !in AddAll(map[], es[..i - 1]) && TotalSize(es[..i]) <= MAX_PACKAGE_BYTES)
  }

  lemma {:induction false} PassedMeansPublishable(es: seq<ZipEntry>, i: nat)
    requires i <= |es|
    ensures PassedSoFar(es, i) <==>
              && (forall j :: 0 <= j < i ==> Portable(es[j].path)) && DistinctPaths(es[..i])
              && TotalSize(es[..i]) <= MAX_PACKAGE_BYTES
  {
    hide *;
    if i == 0 {
      PassedNothing(es);
    } else {
      PassedMeansPublishable(es, i - 1);
      PassedPush(es, i - 1);
      DistinctPush(es, i - 1);
      TotalPush(es, i - 1);
    }
  }

  lemma PassedNothing(es: seq<ZipEntry>)
    ensures PassedSoFar(es, 0) && DistinctPaths(es[..0]) && TotalSize(es[..0]) <= MAX_PACKAGE_BYTES
  {
  }

  lemma PassedPush(es: seq<ZipEntry>, i: nat)
    requires i < |es|
    ensures PassedSoFar(es, i + 1) <==>
              PassedSoFar(es, i) && Portable(es[i].path)
              && es[i].path !in AddAll(map[], es[..i]) && TotalSize(es[..i + 1]) <= MAX_PACKAGE_BYTES
  {
    hide Portable;
    hide AddAll;
    hide TotalSize;
  }

  lemma DistinctPush(es: seq<ZipEntry>, i: nat)
    requires i < |es|
    ensures DistinctPaths(es[..i + 1]) <==> DistinctPaths(es[..i]) && es[i].path !in AddAll(map[], es[..i])
  {
    AddAllPaths(map[], es[..i], es[i].path);
    hide AddAll;
    var front, all := es[..i], es[..i + 1];
    assert all == front + [es[i]];
    if es[i].path in AddAll(map[], front) {
      var j :| 0 <= j < |front| && front[j].path == es[i].path;
      assert all[j].path == all[i].path;
    }
    if DistinctPaths(all) {
      assert forall j, k :: 0 <= j < k < i ==> front[j] == all[j] && front[k] == all[k];
    }
  }

  lemma FitOf(ms: seq<Member>, i: nat)
    requires i < |ms| && AllFit(ms)
    ensures ms[i].Fits()
  {
    AreasOfPrefix(ms, i + 1);
  }

  lemma MemberBound(z: Platform, e: ZipEntry)
    requires Pack(z, e).Fits()
    ensures Pack(z, e).LocalSize() <= 30 + MAX16 + |e.data| && Pack(z, e).CentralSize() <= 46 + MAX16
  {
  }

  lemma {:induction false} DataAreaBound(z: Platform, es: seq<ZipEntry>, i: nat)
    requires i <= |es| && AllFit(PackAll(z, es))
    ensures |DataArea(PackAll(z, es)[..i])| <= i * (30 + MAX16) + TotalSize(es[..i])
    ensures |Directory(PackAll(z, es)[..i])| <= i * (46 + MAX16)
  {
    hide *;
    if i == 0 {
      NoAreas(z, es);
    } else {
      DataAreaBound(z, es, i - 1);
      var ms, e := PackAll(z, es), es[i - 1];
      AreaPush(ms, i - 1);
      FitOf(ms, i - 1);
      MemberBound(z, e);
      TotalPush(es, i - 1);
      BoundStep(i - 1, 30 + MAX16, |DataArea(ms[..i - 1])|, TotalSize(es[..i - 1]), ms[i - 1].LocalSize(), |e.data|);
      BoundStep(i - 1, 46 + MAX16, |Directory(ms[..i - 1])|, 0, ms[i - 1].CentralSize(), 0);
    }
  }

  lemma NoAreas(z: Platform, es: seq<ZipEntry>)
    ensures |DataArea(PackAll(z, es)[..0])| == 0 && |Directory(PackAll(z, es)[..0])| == 0 && TotalSize(es[..0]) == 0
  {
  }

  lemma TotalPush(es: seq<ZipEntry>, i: nat)
    requires i < |es|
    ensures TotalSize(es[..i + 1]) == TotalSize(es[..i]) + |es[i].data|
  {
    assert es[..i + 1][..i] == es[..i];
  }

  lemma BoundStep(k: nat, record: nat, area: nat, total: nat, size: nat, data: nat)
    requires area <= k * record + total && size <= record + data
    ensures area + size <= (k + 1) * record + (total + data)
  {
  }

  lemma AreaPush(ms: seq<Member>, i: nat)
    requires i < |ms|
    ensures |DataArea(ms[..i + 1])| == |DataArea(ms[..i])| + ms[i].LocalSize()
    ensures |Directory(ms[..i + 1])| == |Directory(ms[..i])| + ms[i].CentralSize()
  {
    assert ms[..i + 1][..i] == ms[..i];
    hide LocalRecord;
    hide CentralRecord;
  }

  /** The reader's state in front of entry `i` of an archive the writer wrote. */
  function StateAt(es: seq<ZipEntry>, ms: seq<Member>, i: nat): Progress
    requires i <= |es| == |ms|
  {
    Progress(AddAll(map[], es[..i]), TotalSize(es[..i]), Cursor(ms, i))
  }

  ghost predicate FilesOnly(es: seq<ZipEntry>) {
    forall i :: 0 <= i < |es| ==> !Lenient.IsDirectoryPath(es[i].path)
  }

  /** The first `i` entries leave every offset far below the largest 32-bit number. */
  lemma OffsetsSmall(z: Platform, es: seq<ZipEntry>, ms: seq<Member>, i: nat)
    requires ms == PackAll(z, es) && AllFit(ms) && i <= |es| <= MAX_ENTRIES && PassedSoFar(es, i)
    ensures |DataArea(ms[..i])| < MAX32 && |Directory(ms[..i])| < MAX32
  {
    PassedMeansPublishable(es, i);
    DataAreaBound(z, es, i);
    hide DataArea;
    hide Directory;
    hide PassedSoFar;
    assert i * (30 + MAX16) <= 4096 * (30 + MAX16) && i * (46 + MAX16) <= 4096 * (46 + MAX16);
  }

  lemma StateStep(es: seq<ZipEntry>, ms: seq<Member>, i: nat)
    requires i < |es| == |ms|
    ensures var s, t, e := StateAt(es, ms, i), StateAt(es, ms, i + 1), es[i];
            && t == Progress(s.files[e.path := e.data], s.total + |e.data|, s.cursor + ms[i].CentralSize())
            && (PassedSoFar(es, i) ==>
                  (PassedSoFar(es, i + 1) <==>
                     Portable(e.path) && e.path !in s.files && s.total + |e.data| <= MAX_PACKAGE_BYTES))
  {
    CursorAdvances(ms, i);
    hide Cursor;
    hide Portable;
    assert es[..i + 1][..i] == es[..i];
  }

  lemma StepFacts(es: seq<ZipEntry>, ms: seq<Member>, i: nat)
    requires i < |es| == |ms| && Representable(ms) && FilesOnly(es)
    ensures AllFit(ms) && StateAt(es, ms, i).cursor == Cursor(ms, i) && !Lenient.IsDirectoryPath(es[i].path)
  {
  }

  lemma StrictStep(z: Platform, es: seq<ZipEntry>, ms: seq<Member>, i: nat)
    requires z.Lawful() && ms == PackAll(z, es) && Representable(ms) && FilesOnly(es)
    requires i < |es| <= MAX_ENTRIES && PassedSoFar(es, i)
    ensures ReadMember(z, Archive(ms), StateAt(es, ms, i)) ==
              if PassedSoFar(es, i + 1) then Accepted(StateAt(es, ms, i + 1)) else Refused
  {
    hide *;
    StepFacts(es, ms, i);
    OffsetsSmall(z, es, ms, i);
    MemberLocated(ms, i);
    StateStep(es, ms, i);
    PackHolds(z, es[i]);
    StrictReadsLocated(z, Archive(ms), Cursor(ms, i), |DataArea(ms[..i])|, ms[i], es[i].path, es[i].data,
      StateAt(es, ms, i));
  }

  lemma {:induction false} StrictRest(z: Platform, es: seq<ZipEntry>, ms: seq<Member>, i: nat)
    requires z.Lawful() && ms == PackAll(z, es) && Representable(ms) && FilesOnly(es)
    requires i <= |es| <= MAX_ENTRIES && PassedSoFar(es, i)
    ensures ReadMembers(z, Archive(ms), StateAt(es, ms, i), |es| - i) ==
              if PassedSoFar(es, |es|) then Accepted(StateAt(es, ms, |es|)) else Refused
    decreases |es| - i
  {
    hide *;
    if i < |es| {
      StrictStep(z, es, ms, i);
      MembersUnfold(z, Archive(ms), StateAt(es, ms, i), |es| - i);
      if PassedSoFar(es, i + 1) {
        StrictRest(z, es, ms, i + 1);
      } else if PassedSoFar(es, |es|) {
        PassedMonotone(es, i + 1, |es|);
      }
    } else {
      NoneLeft(z, Archive(ms), StateAt(es, ms, i));
    }
  }

  lemma NoneLeft(z: Platform, b: Bytes, p: Progress)
    ensures ReadMembers(z, b, p, 0) == Accepted(p)
  {
  }

  lemma MembersUnfold(z: Platform, b: Bytes, p: Progress, n: nat)
    requires n > 0
    ensures ReadMembers(z, b, p, n) ==
              var first := ReadMember(z, b, p);
              if first.Refused? then Refused else ReadMembers(z, b, first.value, n - 1)
  {
    hide ReadMember;
  }

  lemma {:induction false} PassedMonotone(es: seq<ZipEntry>, i: nat, j: nat)
    requires i <= j <= |es| && PassedSoFar(es, j)
    ensures PassedSoFar(es, i)
  {
    if i < j {
      PassedMonotone(es, i, j - 1);
    }
  }

  lemma ContentsFromEnd(z: Platform, b: Bytes, count: nat, size: nat, offset: nat)
    requires |b| == offset + size + 22 && Lenient.FindEnd(b) == Some(offset + size)
    requires U16LE(b, offset + size + 4) == 0 && U16LE(b, offset + size + 6) == 0
    requires U16LE(b, offset + size + 8) == count && U16LE(b, offset + size + 10) == count
    requires U32LE(b, offset + size + 12) == size && U32LE(b, offset + size + 16) == offset
    ensures Contents(z, b) ==
              if count > MAX_ENTRIES || size == MAX32 || offset == MAX32 then Refused
              else
                var p := ReadMembers(z, b, Progress(map[], 0, offset), count);
                if p.Refused? || p.value.cursor != offset + size then Refused else Accepted(p.value.files)
  {
    hide U16LE;
    hide U32LE;
    hide Lenient.FindEnd;
    hide ReadMembers;
  }

  lemma StrictReadsArchive(z: Platform, es: seq<ZipEntry>, ms: seq<Member>)
    requires z.Lawful() && ms == PackAll(z, es) && Representable(ms) && FilesOnly(es)
    ensures Contents(z, Archive(ms)) ==
              if Publishable(es) then Accepted(AddAll(map[], es)) else Refused
  {
    hide *;
    EndFields(ms);
    EndFound(Archive(ms));
    WholeStates(es, ms);
    PublishableMeansPassed(es);
    ContentsFromEnd(z, Archive(ms), |ms|, |Directory(ms)|, |DataArea(ms)|);
    if |es| <= MAX_ENTRIES {
      StepFactsAtEnd(es, ms);
      StrictRest(z, es, ms, 0);
      if PassedSoFar(es, |es|) {
        OffsetsSmall(z, es, ms, |es|);
      }
    }
  }

  lemma StepFactsAtEnd(es: seq<ZipEntry>, ms: seq<Member>)
    requires |es| == |ms| && Representable(ms)
    ensures AllFit(ms) && ms[..|es|] == ms && PassedSoFar(es, 0)
  {
  }

  lemma PublishableMeansPassed(es: seq<ZipEntry>)
    ensures Publishable(es) <==> |es| <= MAX_ENTRIES && PassedSoFar(es, |es|)
  {
    PassedMeansPublishable(es, |es|);
    assert es[..|es|] == es;
    hide PassedSoFar;
    hide Portable;
  }

  lemma WholeStates(es: seq<ZipEntry>, ms: seq<Member>)
    requires |es| == |ms|
    ensures StateAt(es, ms, 0) == Progress(map[], 0, |DataArea(ms)|)
    ensures StateAt(es, ms, |es|) == Progress(AddAll(map[], es), TotalSize(es), |DataArea(ms)| + |Directory(ms)|)
  {
    assert ms[..|ms|] == ms && es[..|es|] == es && ms[..0] == [] && es[..0] == [];
  }

  /**
   * An archive of files the package tool writes is accepted by the registry exactly when
   * every path is portable and used once, there are at most 4096 files and they hold at
   * most 64 MiB; both readers then agree on the contents.
   */
  lemma RegistryAcceptsExactly(z: Platform, entries: seq<ZipEntry>)
    requires z.Lawful() && FilesOnly(entries)
    ensures var sorted := SortByPath(entries);
            var ms := PackAll(z, sorted);
            Representable(ms) ==>
              && Contents(z, Archive(ms)) == (if Publishable(sorted) then Accepted(AddAll(map[], sorted)) else Refused)
              && Lenient.Contents(z, Archive(ms)) == Ok(sorted)
  {
    var sorted := SortByPath(entries);
    var ms := PackAll(z, sorted);
    SameElements(sorted, entries);
    forall i | 0 <= i < |sorted|
      ensures !Lenient.IsDirectoryPath(sorted[i].path)
    {
      assert sorted[i] in entries;
    }
    NoDirectories(sorted);
    if Representable(ms) {
      hide *;
      StrictReadsArchive(z, sorted, ms);
      ReadsArchive(z, sorted, ms);
    }
  }

  lemma {:induction false} NoDirectories(es: seq<ZipEntry>)
    requires FilesOnly(es)
    ensures FilesOf(es) == es
  {
    if es != [] {
      NoDirectories(es[1..]);
      assert es == [es[0]] + es[1..];
    }
  }

  // --- arbitrary bytes ------------------------------------------------------------------

  /** The central directory entry at `cursor` names a directory. */
  predicate NamesDirectory(z: Platform, b: Bytes, cursor: nat) {
    && cursor + 46 <= |b| && cursor + 46 + U16LE(b, cursor + 28) <= |b|
    && Lenient.IsDirectoryPath(z.utf8.decode(b[cursor + 46..cursor + 46 + U16LE(b, cursor + 28)]))
  }

  /** Whatever the strict reader passes as a file, the package tool reads as that file. */
  lemma FileStep(z: Platform, b: Bytes, p: Progress)
    requires ReadMember(z, b, p).Accepted? && !NamesDirectory(z, b, p.cursor)
    ensures var q, r := ReadMember(z, b, p).value, Lenient.ReadMember(z, b, p.cursor);
            && r.Ok? && r.value.1 == q.cursor && !Lenient.IsDirectoryPath(r.value.0.path)
            && r.value.0.path !in p.files && q.files == p.files[r.value.0.path := r.value.0.data]
  {
    hide U16LE;
    hide U32LE;
    hide Portable;
    hide Lenient.Subarray;
    var n, at := U16LE(b, p.cursor + 28), U32LE(b, p.cursor + 42);
    InsideSubarray(b, p.cursor + 46, p.cursor + 46 + n);
    var start := at + 30 + U16LE(b, at + 26) + U16LE(b, at + 28);
    InsideSubarray(b, start, start + U32LE(b, p.cursor + 20));
  }

  /** Directories leave the strict reader's files alone. */
  lemma DirectoryStep(z: Platform, b: Bytes, p: Progress)
    requires ReadMember(z, b, p).Accepted? && NamesDirectory(z, b, p.cursor)
    ensures var q, r := ReadMember(z, b, p).value, Lenient.ReadMember(z, b, p.cursor);
            && q.files == p.files
            && (r.Ok? ==> r.value.1 == q.cursor && Lenient.IsDirectoryPath(r.value.0.path))
  {
    hide U16LE;
    hide U32LE;
    hide Portable;
    hide Lenient.Subarray;
    InsideSubarray(b, p.cursor + 46, p.cursor + 46 + U16LE(b, p.cursor + 28));
  }

  /** Where the central directory entry after the one at `cursor` starts. */
  function NextEntry(b: Bytes, cursor: nat): nat
    requires cursor + 46 <= |b|
  {
    cursor + 46 + U16LE(b, cursor + 28) + U16LE(b, cursor + 30) + U16LE(b, cursor + 32)
  }

  /** The local record the entry points to is there, in a known format, and holds data of the declared size. */
  predicate LocalReadable(z: Platform, b: Bytes, cursor: nat)
    requires cursor + 46 <= |b|
  {
    var at, compression, size := U32LE(b, cursor + 42), U16LE(b, cursor + 10), U32LE(b, cursor + 24);
    && at + 30 <= |b| && U32LE(b, at) == LOCAL_HEADER
    && var start := at + 30 + U16LE(b, at + 26) + U16LE(b, at + 28);
       var raw := Lenient.Subarray(b, start, start + U32LE(b, cursor + 20));
       || (compression == 0 && |raw| == size)
       || (compression == 8 && z.inflate(raw).Some? && |z.inflate(raw).value| == size)
  }

  /** The package tool reads an entry exactly when its header and its local record are in order. */
  lemma LenientReadsExactly(z: Platform, b: Bytes, cursor: nat)
    ensures Lenient.ReadMember(z, b, cursor).Ok? <==>
              cursor + 46 <= |b| && U32LE(b, cursor) == CENTRAL_HEADER && LocalReadable(z, b, cursor)
    ensures Lenient.ReadMember(z, b, cursor).Ok? ==> Lenient.ReadMember(z, b, cursor).value.1 == NextEntry(b, cursor)
  {
    hide U16LE;
    hide U32LE;
    hide Lenient.Subarray;
  }

  /** Every entry of the directory can be read. */
  predicate EntriesReadable(z: Platform, b: Bytes, cursor: nat, count: nat)
    decreases count
  {
    count == 0 ||
    (&& cursor + 46 <= |b| && U32LE(b, cursor) == CENTRAL_HEADER && LocalReadable(z, b, cursor)
     && EntriesReadable(z, b, NextEntry(b, cursor), count - 1))
  }

  lemma {:induction false} LenientReadsAllExactly(z: Platform, b: Bytes, cursor: nat, count: nat)
    ensures Lenient.ReadMembers(z, b, cursor, count).Ok? <==> EntriesReadable(z, b, cursor, count)
    decreases count
  {
    hide Lenient.ReadMember;
    hide LocalReadable;
    if count > 0 {
      LenientReadsExactly(z, b, cursor);
      if Lenient.ReadMember(z, b, cursor).Ok? {
        LenientReadsAllExactly(z, b, NextEntry(b, cursor), count - 1);
      }
    }
  }

  /**
   * On any bytes, the package tool accepts exactly when there is an end record and every entry it counts is
   * readable.
   */
  lemma LenientAcceptsExactly(z: Platform, b: Bytes)
    ensures Lenient.Contents(z, b).Ok? <==>
              && Lenient.FindEnd(b).Some?
              && var end := Lenient.FindEnd(b).value;
                 EntriesReadable(z, b, U32LE(b, end + 16), U16LE(b, end + 10))
  {
    hide Lenient.FindEnd;
    hide Lenient.ReadMembers;
    hide EntriesReadable;
    if Lenient.FindEnd(b).Some? {
      var end := Lenient.FindEnd(b).value;
      LenientReadsAllExactly(z, b, U32LE(b, end + 16), U16LE(b, end + 10));
    }
  }

  /** Every directory among the entries has a readable local record. */
  predicate DirectoriesReadable(z: Platform, b: Bytes, cursor: nat, count: nat)
    decreases count
  {
    count == 0 || cursor + 46 > |b| ||
    ((NamesDirectory(z, b, cursor) ==> LocalReadable(z, b, cursor))
     && DirectoriesReadable(z, b, NextEntry(b, cursor), count - 1))
  }

  /** None of the entries names a directory. */
  predicate NoneIsDirectory(z: Platform, b: Bytes, cursor: nat, count: nat)
    decreases count
  {
    count == 0 || cursor + 46 > |b| ||
    (!NamesDirectory(z, b, cursor) && NoneIsDirectory(z, b, NextEntry(b, cursor), count - 1))
  }

  /** What the strict reader has looked at when it passes an entry. */
  lemma PassedEntry(z: Platform, b: Bytes, p: Progress)
    requires ReadMember(z, b, p).Accepted?
    ensures p.cursor + 46 <= |b| && U32LE(b, p.cursor) == CENTRAL_HEADER
    ensures ReadMember(z, b, p).value.cursor == NextEntry(b, p.cursor)
  {
    hide U16LE;
    hide U32LE;
    hide Portable;
  }

  lemma {:induction false} AddAllCons(files: Files, e: ZipEntry, rest: seq<ZipEntry>)
    ensures AddAll(files, [e] + rest) == AddAll(files[e.path := e.data], rest)
    decreases |rest|
  {
    if rest == [] {
      assert [e] + rest == [e] && [e][..0] == [];
    } else {
      AddAllCons(files, e, rest[..|rest| - 1]);
      assert ([e] + rest)[..|rest|] == [e] + rest[..|rest| - 1];
    }
  }

  ghost predicate FreshPaths(files: Files, es: seq<ZipEntry>) {
    && DistinctPaths(es)
    && forall i :: 0 <= i < |es| ==> es[i].path !in files
  }

  lemma FreshCons(files: Files, e: ZipEntry, rest: seq<ZipEntry>)
    requires e.path !in files && FreshPaths(files[e.path := e.data], rest)
    ensures FreshPaths(files, [e] + rest)
  {
    assert forall i :: 0 < i < |[e] + rest| ==> ([e] + rest)[i] == rest[i - 1];
  }

  lemma {:induction false} StrictRefinesLenientFrom(z: Platform, b: Bytes, p: Progress, count: nat)
    requires ReadMembers(z, b, p, count).Accepted?
    ensures var q, r := ReadMembers(z, b, p, count).value, Lenient.ReadMembers(z, b, p.cursor, count);
            && (r.Ok? <==> DirectoriesReadable(z, b, p.cursor, count))
            && (r.Ok? ==> FreshPaths(p.files, r.value) && q.files == AddAll(p.files, r.value))
    decreases count
  {
    hide ReadMember;
    hide Lenient.ReadMember;
    hide NamesDirectory;
    hide LocalReadable;
    hide NextEntry;
    if count > 0 {
      var q := ReadMember(z, b, p).value;
      StrictRefinesLenientFrom(z, b, q, count - 1);
      PassedEntry(z, b, p);
      LenientReadsExactly(z, b, p.cursor);
      var rest := Lenient.ReadMembers(z, b, q.cursor, count - 1);
      if NamesDirectory(z, b, p.cursor) {
        DirectoryStep(z, b, p);
      } else {
        FileStep(z, b, p);
        if rest.Ok? {
          var e := Lenient.ReadMember(z, b, p.cursor).value.0;
          AddAllCons(p.files, e, rest.value);
          FreshCons(p.files, e, rest.value);
        }
      }
    }
  }

  /**
   * On any bytes the strict reader accepts, both readers use the same end record, the
   * package tool accepts as well exactly when the directories, which the strict reader
   * only skips, have readable local records, and then they return the same files.
   */
  lemma StrictRefinesLenient(z: Platform, b: Bytes)
    requires Contents(z, b).Accepted?
    ensures Lenient.FindEnd(b).Some?
    ensures var end := Lenient.FindEnd(b).value;
            && (Lenient.Contents(z, b).Ok? <==> DirectoriesReadable(z, b, U32LE(b, end + 16), U16LE(b, end + 10)))
            && (Lenient.Contents(z, b).Ok? ==>
                  DistinctPaths(Lenient.Contents(z, b).value)
                  && AddAll(map[], Lenient.Contents(z, b).value) == Contents(z, b).value)
  {
    hide ReadMembers;
    hide Lenient.ReadMembers;
    hide DirectoriesReadable;
    hide AddAll;
    var end := Lenient.FindEnd(b).value;
    StrictRefinesLenientFrom(z, b, Progress(map[], 0, U32LE(b, end + 16)), U16LE(b, end + 10));
  }

  lemma {:induction false} NoneToRead(z: Platform, b: Bytes, cursor: nat, count: nat)
    requires NoneIsDirectory(z, b, cursor, count)
    ensures DirectoriesReadable(z, b, cursor, count)
    decreases count
  {
    hide NamesDirectory;
    hide LocalReadable;
    if count > 0 && cursor + 46 <= |b| {
      NoneToRead(z, b, NextEntry(b, cursor), count - 1);
    }
  }

  /**
   * Bytes without directory entries that the strict reader accepts are accepted by the package tool, with the
   * same files.
   */
  lemma FilesAreReadable(z: Platform, b: Bytes)
    requires Contents(z, b).Accepted? && Lenient.FindEnd(b).Some?
    requires var end := Lenient.FindEnd(b).value;
             NoneIsDirectory(z, b, U32LE(b, end + 16), U16LE(b, end + 10))
    ensures Lenient.Contents(z, b).Ok?
    ensures DistinctPaths(Lenient.Contents(z, b).value)
    ensures AddAll(map[], Lenient.Contents(z, b).value) == Contents(z, b).value
  {
    hide *;
    var end := Lenient.FindEnd(b).value;
    StrictRefinesLenient(z, b);
    NoneToRead(z, b, U32LE(b, end + 16), U16LE(b, end + 10));
  }

  // --- what the strict reader accepts ----------------------------------------------------

  function NameAt(z: Platform, b: Bytes, cursor: nat): string
    requires cursor + 46 <= |b| && NextEntry(b, cursor) <= |b|
  {
    z.utf8.decode(b[cursor + 46..cursor + 46 + U16LE(b, cursor + 28)])
  }

  /** A complete central header: not encrypted, no ZIP64 fields, nothing past the end. */
  predicate HeaderSound(b: Bytes, cursor: nat) {
    && cursor + 46 <= |b| && U32LE(b, cursor) == CENTRAL_HEADER && NextEntry(b, cursor) <= |b|
    && U16LE(b, cursor + 8) % 2 == 0
    && U32LE(b, cursor + 20) != MAX32 && U32LE(b, cursor + 24) != MAX32 && U32LE(b, cursor + 42) != MAX32
  }

  /** A file under a portable name, with a local record that agrees and holds data of the declared size. */
  predicate FileSound(z: Platform, b: Bytes, cursor: nat)
    requires HeaderSound(b, cursor)
  {
    var at, compression, size := U32LE(b, cursor + 42), U16LE(b, cursor + 10), U32LE(b, cursor + 24);
    && Portable(NameAt(z, b, cursor))
    && at + 30 <= |b| && U32LE(b, at) == LOCAL_HEADER && U16LE(b, at + 8) == compression
    && z.utf8.decode(Lenient.Subarray(b, at + 30, at + 30 + U16LE(b, at + 26))) == NameAt(z, b, cursor)
    && var start := at + 30 + U16LE(b, at + 26) + U16LE(b, at + 28);
       && start + U32LE(b, cursor + 20) <= |b|
       && var raw := b[start..start + U32LE(b, cursor + 20)];
          || (compression == 0 && |raw| == size)
          || (compression == 8 && Inflate(z, raw).Some? && |Inflate(z, raw).value| == size)
  }

  predicate EntrySound(z: Platform, b: Bytes, cursor: nat) {
    HeaderSound(b, cursor) && (NamesDirectory(z, b, cursor) || FileSound(z, b, cursor))
  }

  predicate EntriesSound(z: Platform, b: Bytes, cursor: nat, count: nat)
    decreases count
  {
    count == 0 || (EntrySound(z, b, cursor) && EntriesSound(z, b, NextEntry(b, cursor), count - 1))
  }

  /** The names of the files among the entries. */
  function FileNames(z: Platform, b: Bytes, cursor: nat, count: nat): seq<string>
    requires EntriesSound(z, b, cursor, count)
    decreases count
  {
    if count == 0 then []
    else
      var rest := FileNames(z, b, NextEntry(b, cursor), count - 1);
      if NamesDirectory(z, b, cursor) then rest else [NameAt(z, b, cursor)] + rest
  }

  /** How much the files say they hold. */
  function DeclaredSize(z: Platform, b: Bytes, cursor: nat, count: nat): nat
    requires EntriesSound(z, b, cursor, count)
    decreases count
  {
    if count == 0 then 0
    else
      (if NamesDirectory(z, b, cursor) then 0 else U32LE(b, cursor + 24))
        + DeclaredSize(z, b, NextEntry(b, cursor), count - 1)
  }

  function EntriesEnd(z: Platform, b: Bytes, cursor: nat, count: nat): nat
    requires EntriesSound(z, b, cursor, count)
    decreases count
  {
    if count == 0 then cursor else EntriesEnd(z, b, NextEntry(b, cursor), count - 1)
  }

  ghost predicate Distinct(names: seq<string>) {
    forall i, j :: 0 <= i < j < |names| ==> names[i] != names[j]
  }

  ghost predicate NewNames(names: seq<string>, seen: set<string>) {
    Distinct(names) && forall i :: 0 <= i < |names| ==> names[i] !in seen
  }

  lemma NewNamesCons(name: string, rest: seq<string>, seen: set<string>)
    ensures NewNames([name] + rest, seen) <==> name !in seen && NewNames(rest, seen + {name})
  {
    var all := [name] + rest;
    assert all[0] == name && all[1..] == rest;
    if NewNames(all, seen) {
      forall i | 0 <= i < |rest|
        ensures rest[i] !in seen + {name}
      {
        assert all[i + 1] == rest[i];
      }
      forall i, j | 0 <= i < j < |rest|
        ensures rest[i] != rest[j]
      {
        assert all[i + 1] == rest[i] && all[j + 1] == rest[j];
      }
    }
  }

  lemma StrictReadsExactly(z: Platform, b: Bytes, p: Progress)
    ensures ReadMember(z, b, p).Accepted? <==>
              && EntrySound(z, b, p.cursor)
              && (NamesDirectory(z, b, p.cursor)
                  || (NameAt(z, b, p.cursor) !in p.files && p.total + U32LE(b, p.cursor + 24) <= MAX_PACKAGE_BYTES))
    ensures ReadMember(z, b, p).Accepted? ==>
              var q := ReadMember(z, b, p).value;
              && q.cursor == NextEntry(b, p.cursor)
              && (if NamesDirectory(z, b, p.cursor) then q.files.Keys == p.files.Keys && q.total == p.total
                  else
                    && q.files.Keys == p.files.Keys + {NameAt(z, b, p.cursor)}
                    && q.total == p.total + U32LE(b, p.cursor + 24))
  {
    hide U16LE;
    hide U32LE;
    hide Portable;
    hide Inflate;
    hide Lenient.Subarray;
  }

  lemma {:induction false} StrictReadsAllExactly(z: Platform, b: Bytes, p: Progress, count: nat)
    requires p.total <= MAX_PACKAGE_BYTES
    ensures ReadMembers(z, b, p, count).Accepted? <==>
              && EntriesSound(z, b, p.cursor, count)
              && NewNames(FileNames(z, b, p.cursor, count), p.files.Keys)
              && p.total + DeclaredSize(z, b, p.cursor, count) <= MAX_PACKAGE_BYTES
    ensures ReadMembers(z, b, p, count).Accepted? ==>
              ReadMembers(z, b, p, count).value.cursor == EntriesEnd(z, b, p.cursor, count)
    decreases count
  {
    hide ReadMember;
    hide FileSound;
    hide NamesDirectory;
    hide NameAt;
    hide NextEntry;
    hide NewNames;
    if count == 0 {
      NoNames(p.files.Keys);
    } else {
      StrictReadsExactly(z, b, p);
      if EntriesSound(z, b, p.cursor, count) && !NamesDirectory(z, b, p.cursor) {
        NewNamesCons(NameAt(z, b, p.cursor), FileNames(z, b, NextEntry(b, p.cursor), count - 1), p.files.Keys);
      }
      if ReadMember(z, b, p).Accepted? {
        StrictReadsAllExactly(z, b, ReadMember(z, b, p).value, count - 1);
      }
    }
  }

  lemma NoNames(seen: set<string>)
    ensures NewNames([], seen)
  {
  }

  /**
   * On any bytes, the strict reader accepts exactly when one end record counts the entries,
   * every entry is sound on its own, no file name repeats, the files say they hold at most
   * 64 MiB, and the directory is exactly as long as declared.
   */
  lemma StrictAcceptsExactly(z: Platform, b: Bytes)
    ensures Contents(z, b).Accepted? <==>
              && Lenient.FindEnd(b).Some?
              && var end := Lenient.FindEnd(b).value;
                 var count, size, offset := U16LE(b, end + 10), U32LE(b, end + 12), U32LE(b, end + 16);
                 && U16LE(b, end + 4) == 0 && U16LE(b, end + 6) == 0 && U16LE(b, end + 8) == count
                 && count <= MAX_ENTRIES && size != MAX32 && offset != MAX32 && offset + size <= end
                 && EntriesSound(z, b, offset, count) && Distinct(FileNames(z, b, offset, count))
                 && DeclaredSize(z, b, offset, count) <= MAX_PACKAGE_BYTES
                 && EntriesEnd(z, b, offset, count) == offset + size
  {
    hide Lenient.FindEnd;
    hide ReadMembers;
    hide EntriesSound;
    hide FileNames;
    hide DeclaredSize;
    hide EntriesEnd;
    hide Distinct;
    hide U16LE;
    hide U32LE;
    if Lenient.FindEnd(b).Some? {
      var end := Lenient.FindEnd(b).value;
      StrictReadsAllExactly(z, b, Progress(map[], 0, U32LE(b, end + 16)), U16LE(b, end + 10));
      if EntriesSound(z, b, U32LE(b, end + 16), U16LE(b, end + 10)) {
        NothingSeen(FileNames(z, b, U32LE(b, end + 16), U16LE(b, end + 10)));
      }
    }
    hide NewNames;
  }

  lemma NothingSeen(names: seq<string>)
    ensures NewNames(names, {}) <==> Distinct(names)
  {
  }

  /** An archive of one directory "d/" whose local record does not exist. */
  function DanglingDirectory(): Bytes {
    CentralRecord(Member([100, 47], 0, 0, [], 0), 0) + EndRecordBytes(1, 48, 0)
  }

  lemma DanglingFields()
    ensures var b := DanglingDirectory();
            && |b| == 70 && b[46..48] == [100, 47]
            && U32LE(b, 0) == CENTRAL_HEADER && U16LE(b, 8) == 0 && U32LE(b, 20) == 0 && U32LE(b, 24) == 0
            && U16LE(b, 28) == 2 && U16LE(b, 30) == 0 && U16LE(b, 32) == 0 && U32LE(b, 42) == 0
            && U32LE(b, 48) == END_OF_CENTRAL_DIRECTORY && U16LE(b, 52) == 0 && U16LE(b, 54) == 0
            && U16LE(b, 56) == 1 && U16LE(b, 58) == 1 && U32LE(b, 60) == 48 && U32LE(b, 64) == 0
  {
    DanglingParts();
    var b, m := DanglingDirectory(), Member([100, 47], 0, 0, [], 0);
    hide DanglingDirectory;
    CentralLocated(b, 0, 0, m);
    hide CentralRecord;
    hide U16LE;
    hide U32LE;
    assert CentralAt(b, 0, 0, m);
  }

  lemma DanglingParts()
    ensures var b := DanglingDirectory();
            && |b| == 70 && b[0..48] == CentralRecord(Member([100, 47], 0, 0, [], 0), 0)
            && U32LE(b, 48) == END_OF_CENTRAL_DIRECTORY && U16LE(b, 52) == 0 && U16LE(b, 54) == 0
            && U16LE(b, 56) == 1 && U16LE(b, 58) == 1 && U32LE(b, 60) == 48 && U32LE(b, 64) == 0
  {
    var r := CentralRecord(Member([100, 47], 0, 0, [], 0), 0);
    EndWindow(r, 1, 48, 0);
    hide CentralRecord;
    hide EndRecordBytes;
    hide U16LE;
    hide U32LE;
  }

  lemma DanglingMember(z: Platform, b: Bytes)
    requires z.utf8.decode([100, 47]) == "d/"
    requires |b| == 70 && b[46..48] == [100, 47]
    requires U32LE(b, 0) == CENTRAL_HEADER && U16LE(b, 8) == 0 && U32LE(b, 20) == 0 && U32LE(b, 24) == 0
    requires U16LE(b, 28) == 2 && U16LE(b, 30) == 0 && U16LE(b, 32) == 0 && U32LE(b, 42) == 0
    ensures ReadMember(z, b, Progress(map[], 0, 0)) == Accepted(Progress(map[], 0, 48))
    ensures Lenient.ReadMember(z, b, 0) == Err(FormatError)
  {
    hide U16LE;
    hide U32LE;
    hide Portable;
  }

  /** The condition on directories is needed: here the readers disagree. */
  lemma ReadersDisagree(z: Platform)
    requires z.utf8.decode([100, 47]) == "d/"
    ensures Contents(z, DanglingDirectory()) == Accepted(map[])
    ensures Lenient.Contents(z, DanglingDirectory()) == Err(FormatError)
  {
    var b := DanglingDirectory();
    DanglingFields();
    hide DanglingDirectory;
    EndFound(b);
    DanglingMember(z, b);
    hide ReadMember;
    hide Lenient.ReadMember;
    hide Lenient.FindEnd;
    hide U16LE;
    hide U32LE;
    ContentsFromEnd(z, b, 1, 48, 0);
  }

  // --- the same bytes every time -----------------------------------------------------------

  lemma PathOrder()
    ensures IsOrder(PathBefore)
  {
    forall a: ZipEntry, b: ZipEntry | PathBefore(a, b)
      ensures !PathBefore(b, a)
    {
      BeforeAsymmetric(Utf16Rank, a.path, b.path);
    }
    forall a: ZipEntry, b: ZipEntry, c: ZipEntry | PathBefore(a, c)
      ensures PathBefore(a, b) || PathBefore(b, c)
    {
      BeforeSeparates(Utf16Rank, a.path, b.path, c.path);
    }
  }

  /** The archive does not depend on the order in which the entries were listed. */
  lemma ListingOrderIsImmaterial(entries: seq<ZipEntry>, shuffled: seq<ZipEntry>)
    requires multiset(entries) == multiset(shuffled) && DistinctPaths(entries)
    ensures SortByPath(entries) == SortByPath(shuffled)
  {
    PathOrder();
    RanksInjective();
    forall x, y | x in entries && y in entries && x != y
      ensures PathBefore(x, y) || PathBefore(y, x)
    {
      BeforeTotal(Utf16Rank, x.path, y.path);
    }
    SortUnique(PathBefore, entries, shuffled);
  }

  /** The files come back in path order, and exactly the files that went in. */
  lemma SortedPermutation(entries: seq<ZipEntry>)
    ensures Sorted(PathBefore, SortByPath(entries)) && multiset(SortByPath(entries)) == multiset(entries)
  {
    PathOrder();
    SortSorted(PathBefore, entries);
  }
}
