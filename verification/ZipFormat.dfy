/**
 * The `.swa` archive layout and its writer.
 *
 * The layout is that of sections 4.3.7, 4.3.12 and 4.3.16 of the PKWARE .ZIP
 * File Format Specification, stated as what must be found at which position.
 */
module ZipFormat {
  import opened ByteCodec
  import opened Wrappers
  import opened Sorting
  import opened Text
  import Crc32

  const LOCAL_HEADER := 0x04034b50
  const CENTRAL_HEADER := 0x02014b50
  const END_OF_CENTRAL_DIRECTORY := 0x06054b50
  const DOS_TIME := 0
  /** (2020 - 1980) << 9 | 1 << 5 | 1 */
  const DOS_DATE := 40 * 512 + 32 + 1
  /** A regular file with mode 0644 in the upper half: 0o100644 * 0x10000. */
  const REGULAR_FILE := 0x81a4 * 0x1_0000

  const MAX16 := 0xffff
  const MAX32 := 0xffff_ffff

  /** An exception: the format was rejected, or a Buffer access was out of range. */
  datatype ZipError = FormatError | RangeError

  datatype Result<+T> = Ok(value: T) | Err(error: ZipError)

  datatype ZipEntry = ZipEntry(path: string, data: Bytes)

  /** What the archive code takes from the platform: UTF-8 and raw deflate. */
  datatype Platform = Platform(utf8: Utf8, deflate: Bytes -> Bytes, inflate: Bytes -> Option<Bytes>) {
    ghost predicate Lawful() {
      utf8.Lawful() && forall d :: inflate(deflate(d)) == Some(d)
    }
  }

  // --- the layout --------------------------------------------------------------

  /** One file as it lies in the archive. */
  datatype Member = Member(name: Bytes, compression: nat, crc: nat, payload: Bytes, size: nat) {
    function LocalSize(): nat { 30 + |name| + |payload| }
    function CentralSize(): nat { 46 + |name| }

    /** Every field of the member fits the header field it is written to. */
    predicate Fits() {
      |name| <= MAX16 && compression <= MAX16 && crc <= MAX32 && |payload| <= MAX32 && size <= MAX32
    }
  }

  /** The 26 bytes the two headers share, from "version needed" to "extra field length". */
  predicate CommonFields(h: Bytes, i: nat, m: Member)
    requires i + 26 <= |h|
  {
    && U16LE(h, i) == 20 && U16LE(h, i + 2) == 0 && U16LE(h, i + 4) == m.compression
    && U16LE(h, i + 6) == DOS_TIME && U16LE(h, i + 8) == DOS_DATE
    && U32LE(h, i + 10) == m.crc && U32LE(h, i + 14) == |m.payload| && U32LE(h, i + 18) == m.size
    && U16LE(h, i + 22) == |m.name| && U16LE(h, i + 24) == 0
  }

  /** A local file header. */
  predicate IsLocalHeader(h: Bytes, m: Member)
    requires |h| == 30
  {
    U32LE(h, 0) == LOCAL_HEADER && CommonFields(h, 4, m)
  }

  predicate IsCentralHeader(h: Bytes, m: Member, offset: nat)
    requires |h| == 46
  {
    && U32LE(h, 0) == CENTRAL_HEADER
    && U16LE(h, 4) == 20 && CommonFields(h, 6, m)
    && U16LE(h, 32) == 0 && U16LE(h, 34) == 0 && U16LE(h, 36) == 0
    && U32LE(h, 38) == REGULAR_FILE && U32LE(h, 42) == offset
  }

  predicate IsEndRecord(h: Bytes, count: nat, size: nat, offset: nat)
    requires |h| == 22
  {
    && U32LE(h, 0) == END_OF_CENTRAL_DIRECTORY
    && U16LE(h, 4) == 0 && U16LE(h, 6) == 0 && U16LE(h, 8) == count && U16LE(h, 10) == count
    && U32LE(h, 12) == size && U32LE(h, 16) == offset && U16LE(h, 20) == 0
  }

  // --- the bytes that satisfy it -------------------------------------------------

  function CommonBytes(m: Member): (h: Bytes)
    ensures |h| == 26
  {
    LE16(20) + LE16(0) + LE16(m.compression) + LE16(DOS_TIME) + LE16(DOS_DATE)
    + LE32(m.crc) + LE32(|m.payload|) + LE32(m.size) + LE16(|m.name|) + LE16(0)
  }

  function LocalHeaderBytes(m: Member): (h: Bytes)
    ensures |h| == 30
  {
    LE32(LOCAL_HEADER) + CommonBytes(m)
  }

  function CentralHeaderBytes(m: Member, offset: nat): (h: Bytes)
    ensures |h| == 46
  {
    LE32(CENTRAL_HEADER) + LE16(20) + CommonBytes(m)
    + LE16(0) + LE16(0) + LE16(0) + LE32(REGULAR_FILE) + LE32(offset)
  }

  function EndRecordBytes(count: nat, size: nat, offset: nat): (h: Bytes)
    ensures |h| == 22
  {
    LE32(END_OF_CENTRAL_DIRECTORY) + LE16(0) + LE16(0) + LE16(count) + LE16(count)
    + LE32(size) + LE32(offset) + LE16(0)
  }

  lemma CommonBytesFields(m: Member)
    requires m.Fits()
    ensures CommonFields(CommonBytes(m), 0, m)
  {
  }

  lemma LocalHeaderFields(m: Member)
    requires m.Fits()
    ensures IsLocalHeader(LocalHeaderBytes(m), m)
  {
    CommonBytesFields(m);
    CommonFieldsMove(CommonBytes(m), LE32(LOCAL_HEADER), m, []);
    assert LE32(LOCAL_HEADER) + CommonBytes(m) + [] == LocalHeaderBytes(m);
  }

  lemma CentralHeaderFields(m: Member, offset: nat)
    requires m.Fits() && offset <= MAX32
    ensures IsCentralHeader(CentralHeaderBytes(m, offset), m, offset)
  {
    var head := LE32(CENTRAL_HEADER) + LE16(20);
    var tail := LE16(0) + LE16(0) + LE16(0) + LE32(REGULAR_FILE) + LE32(offset);
    CommonBytesFields(m);
    CommonFieldsMove(CommonBytes(m), head, m, tail);
    assert head + CommonBytes(m) + tail == CentralHeaderBytes(m, offset);
  }

  lemma EndRecordFields(count: nat, size: nat, offset: nat)
    requires count <= MAX16 && size <= MAX32 && offset <= MAX32
    ensures IsEndRecord(EndRecordBytes(count, size, offset), count, size, offset)
  {
  }

  lemma CommonFieldsMove(h: Bytes, before: Bytes, m: Member, after: Bytes)
    requires |h| == 26
    ensures CommonFields(h, 0, m) ==> CommonFields(before + h + after, |before|, m)
  {
    var x := before + h + after;
    assert forall k :: 0 <= k < 26 ==> x[|before| + k] == h[k];
  }

  // --- header fields determine header bytes --------------------------------------

  lemma SameU16(a: Bytes, i: nat, b: Bytes, j: nat)
    requires i + 2 <= |a| && j + 2 <= |b| && U16LE(a, i) == U16LE(b, j)
    ensures a[i] == b[j] && a[i + 1] == b[j + 1]
  {
  }

  lemma SameU32(a: Bytes, i: nat, b: Bytes, j: nat)
    requires i + 4 <= |a| && j + 4 <= |b| && U32LE(a, i) == U32LE(b, j)
    ensures a[i] == b[j] && a[i + 1] == b[j + 1] && a[i + 2] == b[j + 2] && a[i + 3] == b[j + 3]
  {
    SameHalves(U16LE(a, i), U16LE(a, i + 2), U16LE(b, j), U16LE(b, j + 2));
    SameU16(a, i, b, j);
    SameU16(a, i + 2, b, j + 2);
    hide *;
  }

  lemma SameHalves(low: nat, high: nat, low': nat, high': nat)
    requires low < 0x1_0000 && low' < 0x1_0000 && low + 0x1_0000 * high == low' + 0x1_0000 * high'
    ensures low == low' && high == high'
  {
  }

  lemma CommonFieldsUnique(a: Bytes, b: Bytes, i: nat, m: Member)
    requires i + 26 <= |a| == |b| && CommonFields(a, i, m) && CommonFields(b, i, m)
    ensures a[i..i + 26] == b[i..i + 26]
  {
    SameU16(a, i, b, i);
    SameU16(a, i + 2, b, i + 2);
    SameU16(a, i + 4, b, i + 4);
    SameU16(a, i + 6, b, i + 6);
    SameU16(a, i + 8, b, i + 8);
    SameU32(a, i + 10, b, i + 10);
    SameU32(a, i + 14, b, i + 14);
    SameU32(a, i + 18, b, i + 18);
    SameU16(a, i + 22, b, i + 22);
    SameU16(a, i + 24, b, i + 24);
  }

  lemma LocalHeaderUnique(a: Bytes, b: Bytes, m: Member)
    requires |a| == |b| == 30 && IsLocalHeader(a, m) && IsLocalHeader(b, m)
    ensures a == b
  {
    SameU32(a, 0, b, 0);
    CommonFieldsUnique(a, b, 4, m);
    assert a == [a[0], a[1], a[2], a[3]] + a[4..30];
    assert b == [b[0], b[1], b[2], b[3]] + b[4..30];
  }

  lemma CentralHeaderUnique(a: Bytes, b: Bytes, m: Member, offset: nat)
    requires |a| == |b| == 46 && IsCentralHeader(a, m, offset) && IsCentralHeader(b, m, offset)
    ensures a == b
  {
    SameU32(a, 0, b, 0);
    SameU16(a, 4, b, 4);
    CommonFieldsUnique(a, b, 6, m);
    SameU16(a, 32, b, 32);
    SameU16(a, 34, b, 34);
    SameU16(a, 36, b, 36);
    SameU32(a, 38, b, 38);
    SameU32(a, 42, b, 42);
    hide *;
    assert a[..6] == b[..6] && a[32..] == b[32..];
    assert a == a[..6] + a[6..32] + a[32..];
    assert b == b[..6] + b[6..32] + b[32..];
  }

  lemma EndRecordUnique(a: Bytes, b: Bytes, count: nat, size: nat, offset: nat)
    requires |a| == |b| == 22 && IsEndRecord(a, count, size, offset) && IsEndRecord(b, count, size, offset)
    ensures a == b
  {
    SameU32(a, 0, b, 0);
    SameU16(a, 4, b, 4);
    SameU16(a, 6, b, 6);
    SameU16(a, 8, b, 8);
    SameU16(a, 10, b, 10);
    SameU32(a, 12, b, 12);
    SameU32(a, 16, b, 16);
    SameU16(a, 20, b, 20);
  }

  // --- the archive -----------------------------------------------------------------

  function LocalRecord(m: Member): (r: Bytes)
    ensures |r| == m.LocalSize()
  {
    LocalHeaderBytes(m) + m.name + m.payload
  }

  function CentralRecord(m: Member, offset: nat): (r: Bytes)
    ensures |r| == m.CentralSize()
  {
    CentralHeaderBytes(m, offset) + m.name
  }

  /** The local records of `ms`, one after the other. */
  function DataArea(ms: seq<Member>): Bytes {
    if ms == [] then [] else DataArea(ms[..|ms| - 1]) + LocalRecord(ms[|ms| - 1])
  }

  /** The central records of `ms`, each pointing at its local record. */
  function Directory(ms: seq<Member>): Bytes {
    if ms == [] then []
    else Directory(ms[..|ms| - 1]) + CentralRecord(ms[|ms| - 1], |DataArea(ms[..|ms| - 1])|)
  }

  function Archive(ms: seq<Member>): Bytes {
    DataArea(ms) + Directory(ms) + EndRecordBytes(|ms|, |Directory(ms)|, |DataArea(ms)|)
  }

  predicate AllFit(ms: seq<Member>) {
    ms == [] || (AllFit(ms[..|ms| - 1]) && ms[|ms| - 1].Fits())
  }

  /** Everything the writer puts in a header field fits it. */
  predicate Representable(ms: seq<Member>) {
    && |ms| <= MAX16
    && AllFit(ms)
    && |DataArea(ms)| <= MAX32
    && |Directory(ms)| <= MAX32
  }

  lemma {:induction false} AreasOfPrefix(ms: seq<Member>, i: nat)
    requires i <= |ms|
    ensures DataArea(ms[..i]) <= DataArea(ms) && Directory(ms[..i]) <= Directory(ms)
    ensures AllFit(ms) ==> AllFit(ms[..i])
  {
    if i == |ms| {
      assert ms[..i] == ms;
    } else {
      AreasOfPrefix(ms[..|ms| - 1], i);
      assert ms[..|ms| - 1][..i] == ms[..i];
    }
  }

  // --- what goes into the archive ---------------------------------------------

  predicate PathBefore(a: ZipEntry, b: ZipEntry) {
    JsBefore(a.path, b.path)
  }

  function SortByPath(entries: seq<ZipEntry>): seq<ZipEntry> {
    Sort(PathBefore, entries)
  }

  /** Deflated when that is strictly smaller, stored otherwise. */
  function Pack(z: Platform, e: ZipEntry): Member {
    var deflated := z.deflate(e.data);
    var stored := |deflated| >= |e.data|;
    Member(z.utf8.encode(e.path), if stored then 0 else 8, Crc32.Checksum(e.data),
           if stored then e.data else deflated, |e.data|)
  }

  function PackAll(z: Platform, entries: seq<ZipEntry>): (ms: seq<Member>)
    ensures |ms| == |entries|
    ensures forall i :: 0 <= i < |ms| ==> ms[i] == Pack(z, entries[i])
  {
    seq(|entries|, i requires 0 <= i < |entries| => Pack(z, entries[i]))
  }

  // --- the writer ----------------------------------------------------------------

  function Concat(buffers: seq<Bytes>): Bytes {
    if buffers == [] then [] else Concat(buffers[..|buffers| - 1]) + buffers[|buffers| - 1]
  }

  lemma ConcatPush(buffers: seq<Bytes>, b: Bytes)
    ensures Concat(buffers + [b]) == Concat(buffers) + b
  {
    assert (buffers + [b])[..|buffers|] == buffers;
  }

  method WriteCommonFields(a: array<Byte>, i: nat, m: Member)
    requires m.Fits() && i + 26 <= a.Length
    modifies a
    ensures CommonFields(a[..], i, m)
    ensures forall k :: 0 <= k < a.Length && !(i <= k < i + 26) ==> a[k] == old(a[k])
  {
    WriteUInt16LE(a, 20, i);
    WriteUInt16LE(a, 0, i + 2);
    WriteUInt16LE(a, m.compression, i + 4);
    WriteUInt16LE(a, DOS_TIME, i + 6);
    WriteUInt16LE(a, DOS_DATE, i + 8);
    WriteUInt32LE(a, m.crc, i + 10);
    WriteUInt32LE(a, |m.payload|, i + 14);
    WriteUInt32LE(a, m.size, i + 18);
    WriteUInt16LE(a, |m.name|, i + 22);
    WriteUInt16LE(a, 0, i + 24);
  }

  method LocalHeader(m: Member) returns (h: Bytes)
    requires m.Fits()
    ensures h == LocalHeaderBytes(m)
  {
    var local := new Byte[30](_ => 0);
    WriteUInt32LE(local, LOCAL_HEADER, 0);
    WriteCommonFields(local, 4, m);
    h := local[..];
    LocalHeaderFields(m);
    LocalHeaderUnique(h, LocalHeaderBytes(m), m);
  }

  /** Comment length, disk, attributes and the offset of the local header. */
  method WriteCentralTail(a: array<Byte>, offset: nat)
    requires a.Length == 46 && offset <= MAX32
    modifies a
    ensures U16LE(a[..], 32) == 0 && U16LE(a[..], 34) == 0 && U16LE(a[..], 36) == 0
    ensures U32LE(a[..], 38) == REGULAR_FILE && U32LE(a[..], 42) == offset
    ensures forall k :: 0 <= k < 32 ==> a[k] == old(a[k])
  {
    WriteUInt16LE(a, 0, 32);
    WriteUInt16LE(a, 0, 34);
    WriteUInt16LE(a, 0, 36);
    WriteUInt32LE(a, REGULAR_FILE, 38);
    WriteUInt32LE(a, offset, 42);
  }

  method CentralHeader(m: Member, offset: nat) returns (h: Bytes)
    requires m.Fits() && offset <= MAX32
    ensures h == CentralHeaderBytes(m, offset)
  {
    var central := new Byte[46](_ => 0);
    WriteUInt32LE(central, CENTRAL_HEADER, 0);
    WriteUInt16LE(central, 20, 4);
    WriteCommonFields(central, 6, m);
    WriteCentralTail(central, offset);
    h := central[..];
    CentralHeaderFields(m, offset);
    CentralHeaderUnique(h, CentralHeaderBytes(m, offset), m, offset);
  }

  method EndRecord(count: nat, size: nat, offset: nat) returns (h: Bytes)
    requires count <= MAX16 && size <= MAX32 && offset <= MAX32
    ensures h == EndRecordBytes(count, size, offset)
  {
    var end := new Byte[22](_ => 0);
    WriteUInt32LE(end, END_OF_CENTRAL_DIRECTORY, 0);
    WriteUInt16LE(end, 0, 4);
    WriteUInt16LE(end, 0, 6);
    WriteUInt16LE(end, count, 8);
    WriteUInt16LE(end, count, 10);
    WriteUInt32LE(end, size, 12);
    WriteUInt32LE(end, offset, 16);
    WriteUInt16LE(end, 0, 20);
    h := end[..];
    EndRecordFields(count, size, offset);
    EndRecordUnique(h, EndRecordBytes(count, size, offset), count, size, offset);
  }

  lemma ConcatPush2(buffers: seq<Bytes>, a: Bytes, b: Bytes)
    ensures Concat(buffers + [a, b]) == Concat(buffers) + (a + b)
  {
    ConcatPush(buffers, a);
    ConcatPush(buffers + [a], b);
    assert buffers + [a] + [b] == buffers + [a, b];
  }

  lemma ConcatPush3(buffers: seq<Bytes>, a: Bytes, b: Bytes, c: Bytes)
    ensures Concat(buffers + [a, b, c]) == Concat(buffers) + (a + b + c)
  {
    ConcatPush2(buffers, a, b);
    ConcatPush(buffers + [a, b], c);
    assert buffers + [a, b] + [c] == buffers + [a, b, c];
  }

  /** The buffers of one entry, or the RangeError of a field that does not hold its value. */
  method PackEntry(z: Platform, entry: ZipEntry, offset: nat, ghost m: Member)
    returns (ok: bool, local: Bytes, name: Bytes, payload: Bytes, central: Bytes)
    requires m == Pack(z, entry)
    ensures ok <==> m.Fits() && offset <= MAX32
    ensures ok ==> name == m.name && payload == m.payload
    ensures ok ==> local == LocalHeaderBytes(m) && central == CentralHeaderBytes(m, offset)
  {
    name := z.utf8.encode(entry.path);
    var crc := Crc32.Crc32(entry.data);
    var deflated := z.deflate(entry.data);
    var stored := |deflated| >= |entry.data|;
    payload := if stored then entry.data else deflated;
    var packed := Member(name, if stored then 0 else 8, crc, payload, |entry.data|);
    ok := packed.Fits() && offset <= MAX32;
    if ok {
      local := LocalHeader(packed);
      central := CentralHeader(packed, offset);
    } else {
      local, central := [], [];
    }
  }

  /** Pushing one member's buffers extends both areas by its two records. */
  lemma AreasGrow(locals: seq<Bytes>, centrals: seq<Bytes>, ms: seq<Member>, i: nat)
    requires i < |ms| && Concat(locals) == DataArea(ms[..i]) && Concat(centrals) == Directory(ms[..i])
    ensures Concat(locals + [LocalHeaderBytes(ms[i]), ms[i].name, ms[i].payload]) == DataArea(ms[..i + 1])
    ensures Concat(centrals + [CentralHeaderBytes(ms[i], |DataArea(ms[..i])|), ms[i].name]) == Directory(ms[..i + 1])
    ensures |DataArea(ms[..i + 1])| == |DataArea(ms[..i])| + ms[i].LocalSize()
    ensures AllFit(ms[..i]) && ms[i].Fits() ==> AllFit(ms[..i + 1])
  {
    assert ms[..i + 1][..i] == ms[..i];
    ConcatPush3(locals, LocalHeaderBytes(ms[i]), ms[i].name, ms[i].payload);
    ConcatPush2(centrals, CentralHeaderBytes(ms[i], |DataArea(ms[..i])|), ms[i].name);
  }

  lemma UnfitMember(ms: seq<Member>, i: nat)
    requires i < |ms| && (!ms[i].Fits() || |DataArea(ms[..i])| > MAX32)
    ensures !AllFit(ms) || |DataArea(ms)| > MAX32
  {
    AreasOfPrefix(ms, i);
    AreasOfPrefix(ms, i + 1);
  }

  /** The loop over the sorted entries. */
  method WriteMembers(z: Platform, sorted: seq<ZipEntry>, ghost ms: seq<Member>)
    returns (ok: bool, locals: seq<Bytes>, centrals: seq<Bytes>, offset: nat)
    requires ms == PackAll(z, sorted)
    ensures ok ==> Concat(locals) == DataArea(ms) && Concat(centrals) == Directory(ms) && offset == |DataArea(ms)|
    ensures ok ==> AllFit(ms)
    ensures !ok ==> !AllFit(ms) || |DataArea(ms)| > MAX32
  {
    locals, centrals, offset := [], [], 0;
    for i := 0 to |sorted|
      invariant Concat(locals) == DataArea(ms[..i]) && Concat(centrals) == Directory(ms[..i])
      invariant offset == |DataArea(ms[..i])|
      invariant AllFit(ms[..i])
    {
      var fits, local, name, payload, central := PackEntry(z, sorted[i], offset, ms[i]);
      if !fits {
        UnfitMember(ms, i);
        return false, locals, centrals, offset;
      }
      AreasGrow(locals, centrals, ms, i);
      locals := locals + [local, name, payload];
      centrals := centrals + [central, name];
      offset := offset + |local| + |name| + |payload|;
    }
    assert ms[..|ms|] == ms;
    ok := true;
  }

  method CreateZip(z: Platform, entries: seq<ZipEntry>) returns (r: Result<Bytes>)
    ensures var ms := PackAll(z, SortByPath(entries));
            r == if Representable(ms) then Ok(Archive(ms)) else Err(RangeError)
  {
    var sorted := SortByPath(entries);
    var ok, locals, centrals, offset := WriteMembers(z, sorted, PackAll(z, sorted));
    if !ok {
      return Err(RangeError);
    }
    var centralBuffer := Concat(centrals);
    if |sorted| > MAX16 || |centralBuffer| > MAX32 || offset > MAX32 {
      return Err(RangeError);
    }
    var end := EndRecord(|sorted|, |centralBuffer|, offset);
    r := Ok(Concat(locals) + centralBuffer + end);
  }
}
