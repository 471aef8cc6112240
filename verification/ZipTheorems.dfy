/** What the writer and the two readers of an archive promise each other. */
module ZipTheorems {
  import opened ByteCodec
  import opened Wrappers
  import opened ZipFormat
  import Lenient = ZipReader

  // --- where everything is ---------------------------------------------------------

  /** `m`, with its local record at `p`, has its central entry at `c`, as far as a reader looks. */
  predicate CentralAt(b: Bytes, c: nat, p: nat, m: Member) {
    && c + m.CentralSize() <= |b|
    && U32LE(b, c) == CENTRAL_HEADER && U16LE(b, c + 8) == 0 && U16LE(b, c + 10) == m.compression
    && U32LE(b, c + 20) == |m.payload| && U32LE(b, c + 24) == m.size
    && U16LE(b, c + 28) == |m.name| && U16LE(b, c + 30) == 0 && U16LE(b, c + 32) == 0
    && U32LE(b, c + 42) == p && b[c + 46..c + 46 + |m.name|] == m.name
  }

  predicate LocalAt(b: Bytes, p: nat, m: Member) {
    && p + m.LocalSize() <= |b|
    && U32LE(b, p) == LOCAL_HEADER && U16LE(b, p + 8) == m.compression
    && U16LE(b, p + 26) == |m.name| && U16LE(b, p + 28) == 0
    && b[p + 30..p + 30 + |m.name|] == m.name
    && b[p + 30 + |m.name|..p + m.LocalSize()] == m.payload
  }

  predicate Located(b: Bytes, c: nat, p: nat, m: Member) {
    CentralAt(b, c, p, m) && LocalAt(b, p, m)
  }

  lemma Window(b: Bytes, i: nat, h: Bytes, k: nat)
    requires i + |h| <= |b| && b[i..i + |h|] == h
    ensures k + 2 <= |h| ==> U16LE(b, i + k) == U16LE(h, k)
    ensures k + 4 <= |h| ==> U32LE(b, i + k) == U32LE(h, k)
  {
    assert forall j :: 0 <= j < |h| ==> b[i + j] == h[j];
  }

  lemma SubSlice(b: Bytes, p: nat, r: Bytes, i: nat, j: nat)
    requires p + |r| <= |b| && b[p..p + |r|] == r && i <= j <= |r|
    ensures b[p + i..p + j] == r[i..j]
  {
    forall k | 0 <= k < j - i
      ensures b[p + i..p + j][k] == r[i..j][k]
    {
      assert b[p..p + |r|][i + k] == b[p + (i + k)];
    }
  }

  lemma CentralHeaderSeen(b: Bytes, c: nat, h: Bytes, m: Member, p: nat)
    requires |h| == 46 && IsCentralHeader(h, m, p) && c + 46 <= |b| && b[c..c + 46] == h
    ensures U32LE(b, c) == CENTRAL_HEADER && U16LE(b, c + 8) == 0 && U16LE(b, c + 10) == m.compression
    ensures U32LE(b, c + 20) == |m.payload| && U32LE(b, c + 24) == m.size
    ensures U16LE(b, c + 28) == |m.name| && U16LE(b, c + 30) == 0 && U16LE(b, c + 32) == 0 && U32LE(b, c + 42) == p
  {
    hide U16LE;
    hide U32LE;
    Window(b, c, h, 0);
    Window(b, c, h, 8);
    Window(b, c, h, 10);
    Window(b, c, h, 20);
    Window(b, c, h, 24);
    Window(b, c, h, 28);
    Window(b, c, h, 30);
    Window(b, c, h, 32);
    Window(b, c, h, 42);
  }

  lemma LocalHeaderSeen(b: Bytes, p: nat, h: Bytes, m: Member)
    requires |h| == 30 && IsLocalHeader(h, m) && p + 30 <= |b| && b[p..p + 30] == h
    ensures U32LE(b, p) == LOCAL_HEADER && U16LE(b, p + 8) == m.compression
    ensures U16LE(b, p + 26) == |m.name| && U16LE(b, p + 28) == 0
  {
    hide U16LE;
    hide U32LE;
    Window(b, p, h, 0);
    Window(b, p, h, 8);
    Window(b, p, h, 26);
    Window(b, p, h, 28);
  }

  lemma CentralRecordParts(m: Member, p: nat)
    ensures CentralRecord(m, p)[0..46] == CentralHeaderBytes(m, p)
    ensures CentralRecord(m, p)[46..46 + |m.name|] == m.name
  {
    hide CentralHeaderBytes;
  }

  lemma LocalRecordParts(m: Member)
    ensures var r := LocalRecord(m);
            && r[0..30] == LocalHeaderBytes(m)
            && r[30..30 + |m.name|] == m.name && r[30 + |m.name|..m.LocalSize()] == m.payload
  {
    hide LocalHeaderBytes;
  }

  lemma CentralSlices(b: Bytes, c: nat, p: nat, m: Member)
    requires c + m.CentralSize() <= |b| && b[c..c + m.CentralSize()] == CentralRecord(m, p)
    ensures b[c..c + 46] == CentralHeaderBytes(m, p) && b[c + 46..c + 46 + |m.name|] == m.name
  {
    CentralRecordParts(m, p);
    var r := CentralRecord(m, p);
    hide CentralRecord;
    hide CentralHeaderBytes;
    SubSlice(b, c, r, 0, 46);
    SubSlice(b, c, r, 46, 46 + |m.name|);
  }

  lemma CentralLocated(b: Bytes, c: nat, p: nat, m: Member)
    requires m.Fits() && p <= MAX32
    requires c + m.CentralSize() <= |b| && b[c..c + m.CentralSize()] == CentralRecord(m, p)
    ensures CentralAt(b, c, p, m)
  {
    CentralHeaderFields(m, p);
    CentralSlices(b, c, p, m);
    CentralHeaderSeen(b, c, CentralHeaderBytes(m, p), m, p);
    hide IsCentralHeader;
    hide CentralHeaderBytes;
    hide CentralRecord;
    hide U16LE;
    hide U32LE;
  }

  lemma LocalSlices(b: Bytes, p: nat, m: Member)
    requires p + m.LocalSize() <= |b| && b[p..p + m.LocalSize()] == LocalRecord(m)
    ensures b[p..p + 30] == LocalHeaderBytes(m) && b[p + 30..p + 30 + |m.name|] == m.name
    ensures b[p + 30 + |m.name|..p + m.LocalSize()] == m.payload
  {
    LocalRecordParts(m);
    var r := LocalRecord(m);
    hide LocalRecord;
    hide LocalHeaderBytes;
    SubSlice(b, p, r, 0, 30);
    SubSlice(b, p, r, 30, 30 + |m.name|);
    SubSlice(b, p, r, 30 + |m.name|, m.LocalSize());
  }

  lemma LocalLocated(b: Bytes, p: nat, m: Member)
    requires m.Fits()
    requires p + m.LocalSize() <= |b| && b[p..p + m.LocalSize()] == LocalRecord(m)
    ensures LocalAt(b, p, m)
  {
    LocalHeaderFields(m);
    LocalSlices(b, p, m);
    LocalHeaderSeen(b, p, LocalHeaderBytes(m), m);
    hide IsLocalHeader;
    hide LocalHeaderBytes;
    hide LocalRecord;
    hide U16LE;
    hide U32LE;
  }

  /** Where a record inside one of the three parts of an archive lies in the whole. */
  lemma Slot(before: Bytes, part: Bytes, after: Bytes, front: Bytes, r: Bytes)
    requires front + r <= part
    ensures var b, at := before + part + after, |before| + |front|; at + |r| <= |b| && b[at..at + |r|] == r
  {
    assert part == front + r + part[|front| + |r|..];
    var b := before + part + after;
    assert b == before + front + (r + (part[|front| + |r|..] + after));
  }

  lemma SlotFirst(part: Bytes, next: Bytes, last: Bytes, front: Bytes, r: Bytes)
    requires front + r <= part
    ensures var b := part + next + last; |front| + |r| <= |b| && b[|front|..|front| + |r|] == r
  {
    assert part + next + last == [] + part + (next + last);
    Slot([], part, next + last, front, r);
  }

  lemma MemberRecords(ms: seq<Member>, i: nat)
    requires i < |ms|
    ensures DataArea(ms[..i]) + LocalRecord(ms[i]) <= DataArea(ms)
    ensures Directory(ms[..i]) + CentralRecord(ms[i], |DataArea(ms[..i])|) <= Directory(ms)
    ensures AllFit(ms) ==> ms[i].Fits()
  {
    hide *;
    AreasOfPrefix(ms, i + 1);
    var front := ms[..i + 1];
    LastRecords(front);
    FrontOfFront(ms, i);
  }

  lemma FrontOfFront<T>(s: seq<T>, i: nat)
    requires i < |s|
    ensures s[..i + 1][..i] == s[..i] && s[..i + 1][i] == s[i]
  {
  }

  lemma LastRecords(ms: seq<Member>)
    requires ms != []
    ensures var front, m := ms[..|ms| - 1], ms[|ms| - 1];
            && DataArea(ms) == DataArea(front) + LocalRecord(m)
            && Directory(ms) == Directory(front) + CentralRecord(m, |DataArea(front)|)
            && (AllFit(ms) ==> m.Fits())
  {
    hide LocalRecord;
    hide CentralRecord;
  }

  lemma LocatedBySlices(b: Bytes, c: nat, p: nat, m: Member)
    requires m.Fits() && p <= MAX32
    requires c + m.CentralSize() <= |b| && b[c..c + m.CentralSize()] == CentralRecord(m, p)
    requires p + m.LocalSize() <= |b| && b[p..p + m.LocalSize()] == LocalRecord(m)
    ensures Located(b, c, p, m)
  {
    LocalLocated(b, p, m);
    CentralLocated(b, c, p, m);
    hide LocalRecord;
    hide CentralRecord;
    hide CentralAt;
    hide LocalAt;
  }

  lemma LocatedInParts(d: Bytes, dir: Bytes, end: Bytes, front: Bytes, dirFront: Bytes, m: Member)
    requires m.Fits() && |front| <= MAX32
    requires front + LocalRecord(m) <= d && dirFront + CentralRecord(m, |front|) <= dir
    ensures Located(d + dir + end, |d| + |dirFront|, |front|, m)
  {
    hide LocalRecord;
    hide CentralRecord;
    hide Located;
    SlotFirst(d, dir, end, front, LocalRecord(m));
    Slot(d, dir, end, dirFront, CentralRecord(m, |front|));
    LocatedBySlices(d + dir + end, |d| + |dirFront|, |front|, m);
  }

  /** Where central entry `i` starts in the archive. */
  function Cursor(ms: seq<Member>, i: nat): nat
    requires i <= |ms|
  {
    |DataArea(ms)| + |Directory(ms[..i])|
  }

  lemma MemberLocated(ms: seq<Member>, i: nat)
    requires Representable(ms) && i < |ms|
    ensures Located(Archive(ms), Cursor(ms, i), |DataArea(ms[..i])|, ms[i])
  {
    hide LocalRecord;
    hide CentralRecord;
    hide EndRecordBytes;
    hide Located;
    MemberRecords(ms, i);
    LocatedInParts(DataArea(ms), Directory(ms), EndRecordBytes(|ms|, |Directory(ms)|, |DataArea(ms)|),
                   DataArea(ms[..i]), Directory(ms[..i]), ms[i]);
  }

  lemma EndWindow(front: Bytes, count: nat, size: nat, offset: nat)
    requires count <= MAX16 && size <= MAX32 && offset <= MAX32
    ensures var b, e := front + EndRecordBytes(count, size, offset), |front|;
            && U32LE(b, e) == END_OF_CENTRAL_DIRECTORY && U16LE(b, e + 4) == 0 && U16LE(b, e + 6) == 0
            && U16LE(b, e + 8) == count && U16LE(b, e + 10) == count
            && U32LE(b, e + 12) == size && U32LE(b, e + 16) == offset
  {
    var h := EndRecordBytes(count, size, offset);
    EndRecordFields(count, size, offset);
    hide EndRecordBytes;
    var b, e := front + h, |front|;
    assert b[e..e + 22] == h;
    Window(b, e, h, 0);
    Window(b, e, h, 4);
    Window(b, e, h, 6);
    Window(b, e, h, 8);
    Window(b, e, h, 10);
    Window(b, e, h, 12);
    Window(b, e, h, 16);
  }

  lemma EndFields(ms: seq<Member>)
    requires Representable(ms)
    ensures var b, e := Archive(ms), |DataArea(ms)| + |Directory(ms)|;
            && |b| == e + 22
            && U32LE(b, e) == END_OF_CENTRAL_DIRECTORY && U16LE(b, e + 4) == 0 && U16LE(b, e + 6) == 0
            && U16LE(b, e + 8) == |ms| && U16LE(b, e + 10) == |ms|
            && U32LE(b, e + 12) == |Directory(ms)| && U32LE(b, e + 16) == |DataArea(ms)|
  {
    hide DataArea;
    hide Directory;
    hide EndRecordBytes;
    EndWindow(DataArea(ms) + Directory(ms), |ms|, |Directory(ms)|, |DataArea(ms)|);
  }

  /** Both readers start their scan on the end record and stop there. */
  lemma EndFound(b: Bytes)
    requires |b| >= 22 && U32LE(b, |b| - 22) == END_OF_CENTRAL_DIRECTORY
    ensures Lenient.FindEnd(b) == Some(|b| - 22)
  {
  }

  // --- the package tool reads back what it wrote -------------------------------------

  /** The entries that are files. */
  function FilesOf(entries: seq<ZipEntry>): seq<ZipEntry> {
    if entries == [] then []
    else
      var rest := FilesOf(entries[1..]);
      if Lenient.IsDirectoryPath(entries[0].path) then rest else [entries[0]] + rest
  }

  /** The member holds `data` under `path`. */
  predicate Holds(z: Platform, m: Member, path: string, data: Bytes) {
    && z.utf8.decode(m.name) == path && m.size == |data| && |m.payload| <= |data|
    && (m.compression == 0 || m.compression == 8)
    && (m.compression == 0 ==> m.payload == data)
    && (m.compression == 8 ==> z.inflate(m.payload) == Some(data))
  }

  lemma PackHolds(z: Platform, e: ZipEntry)
    requires z.Lawful()
    ensures Holds(z, Pack(z, e), e.path, e.data)
  {
  }

  lemma InsideSubarray(b: Bytes, i: nat, j: nat)
    requires i <= j <= |b|
    ensures Lenient.Subarray(b, i, j) == b[i..j]
  {
  }

  lemma ReadsLocated(z: Platform, b: Bytes, c: nat, p: nat, m: Member, path: string, data: Bytes)
    requires Located(b, c, p, m) && Holds(z, m, path, data)
    ensures Lenient.ReadMember(z, b, c) == Ok((ZipEntry(path, data), c + m.CentralSize()))
  {
    hide U16LE;
    hide U32LE;
    hide Lenient.Subarray;
    InsideSubarray(b, c + 46, c + 46 + |m.name|);
    InsideSubarray(b, p + 30 + |m.name|, p + m.LocalSize());
  }

  lemma CursorAdvances(ms: seq<Member>, i: nat)
    requires i < |ms|
    ensures Cursor(ms, i + 1) == Cursor(ms, i) + ms[i].CentralSize()
  {
    assert ms[..i + 1][..i] == ms[..i];
  }

  lemma ReadsMember(z: Platform, es: seq<ZipEntry>, ms: seq<Member>, i: nat)
    requires z.Lawful() && ms == PackAll(z, es) && Representable(ms) && i < |es|
    ensures Lenient.ReadMember(z, Archive(ms), Cursor(ms, i)) == Ok((es[i], Cursor(ms, i + 1)))
  {
    hide *;
    MemberLocated(ms, i);
    CursorAdvances(ms, i);
    PackHolds(z, es[i]);
    ReadsLocated(z, Archive(ms), Cursor(ms, i), |DataArea(ms[..i])|, ms[i], es[i].path, es[i].data);
  }

  lemma {:induction false} ReadsRest(z: Platform, es: seq<ZipEntry>, ms: seq<Member>, i: nat)
    requires z.Lawful() && ms == PackAll(z, es) && Representable(ms) && i <= |es|
    ensures Lenient.ReadMembers(z, Archive(ms), Cursor(ms, i), |es| - i) == Ok(FilesOf(es[i..]))
    decreases |es| - i
  {
    hide *;
    if i < |es| {
      ReadsMember(z, es, ms, i);
      ReadsRest(z, es, ms, i + 1);
      FilesOfStep(es, i);
      ReadMembersStep(z, Archive(ms), Cursor(ms, i), |es| - i, es[i], Cursor(ms, i + 1), FilesOf(es[i + 1..]));
    } else {
      NoMembers(z, Archive(ms), Cursor(ms, i), es);
    }
  }

  lemma NoMembers(z: Platform, b: Bytes, c: nat, es: seq<ZipEntry>)
    ensures Lenient.ReadMembers(z, b, c, 0) == Ok(FilesOf(es[|es|..]))
  {
  }

  lemma FilesOfStep(es: seq<ZipEntry>, i: nat)
    requires i < |es|
    ensures FilesOf(es[i..]) ==
              if Lenient.IsDirectoryPath(es[i].path) then FilesOf(es[i + 1..]) else [es[i]] + FilesOf(es[i + 1..])
  {
    assert es[i..][1..] == es[i + 1..];
  }

  lemma ReadMembersStep(z: Platform, b: Bytes, c: nat, n: nat, e: ZipEntry, next: nat, rest: seq<ZipEntry>)
    requires n > 0 && Lenient.ReadMember(z, b, c) == Ok((e, next)) && Lenient.ReadMembers(z, b, next, n - 1) == Ok(rest)
    ensures Lenient.ReadMembers(z, b, c, n) == Ok(if Lenient.IsDirectoryPath(e.path) then rest else [e] + rest)
  {
    hide Lenient.ReadMember;
  }

  /** Reading an archive the writer produced gives back the files, in path order. */
  lemma RoundTrip(z: Platform, entries: seq<ZipEntry>)
    requires z.Lawful()
    ensures var sorted := SortByPath(entries);
            Representable(PackAll(z, sorted)) ==>
              Lenient.Contents(z, Archive(PackAll(z, sorted))) == Ok(FilesOf(sorted))
  {
    var sorted := SortByPath(entries);
    var ms := PackAll(z, sorted);
    if Representable(ms) {
      ReadsArchive(z, sorted, ms);
    }
  }

  lemma ReadsArchive(z: Platform, es: seq<ZipEntry>, ms: seq<Member>)
    requires z.Lawful() && ms == PackAll(z, es) && Representable(ms)
    ensures Lenient.Contents(z, Archive(ms)) == Ok(FilesOf(es))
  {
    CursorStarts(ms);
    hide *;
    var b := Archive(ms);
    EndFields(ms);
    EndFound(b);
    ContentsAtEnd(z, b);
    ReadsRest(z, es, ms, 0);
    assert es[0..] == es;
  }

  lemma CursorStarts(ms: seq<Member>)
    ensures Cursor(ms, 0) == |DataArea(ms)|
  {
    assert ms[..0] == [];
    hide DataArea;
  }

  lemma ContentsAtEnd(z: Platform, b: Bytes)
    requires |b| >= 22 && Lenient.FindEnd(b) == Some(|b| - 22)
    ensures Lenient.Contents(z, b) == Lenient.ReadMembers(z, b, U32LE(b, |b| - 22 + 16), U16LE(b, |b| - 22 + 10))
  {
    hide Lenient.FindEnd;
    hide Lenient.ReadMembers;
    hide U16LE;
    hide U32LE;
  }
}
