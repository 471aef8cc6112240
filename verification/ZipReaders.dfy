/** The package tool's archive reader. It trusts whatever the central directory says. */
module ZipReader {
  import opened ByteCodec
  import opened Wrappers
  import opened ZipFormat

  /** `buffer.subarray(i, j)`, which clamps both ends to the buffer. */
  function Subarray(b: Bytes, i: nat, j: nat): Bytes
    requires i <= j
  {
    if i >= |b| then [] else if j > |b| then b[i..] else b[i..j]
  }

  predicate IsDirectoryPath(path: string) {
    path != "" && path[|path| - 1] == '/'
  }

  /** Scan backwards from `i` down to `earliest` for an end record. */
  function EndFrom(b: Bytes, i: int, earliest: nat): (r: Option<nat>)
    requires i + 4 <= |b|
    ensures r.Some? ==> earliest <= r.value <= i && U32LE(b, r.value) == END_OF_CENTRAL_DIRECTORY
    ensures r.Some? ==> forall k :: r.value < k <= i ==> U32LE(b, k) != END_OF_CENTRAL_DIRECTORY
    ensures r.None? ==> forall k :: earliest <= k <= i ==> U32LE(b, k) != END_OF_CENTRAL_DIRECTORY
    decreases i - earliest
  {
    if i < earliest then None
    else if U32LE(b, i) == END_OF_CENTRAL_DIRECTORY then Some(i)
    else EndFrom(b, i - 1, earliest)
  }

  /** Where the last end record starts, if there is one within a maximal comment of the end. */
  function FindEnd(b: Bytes): (r: Option<nat>)
    ensures r.Some? ==> r.value + 22 <= |b|
  {
    if |b| < 22 then None
    else EndFrom(b, |b| - 22, if |b| > 22 + 0xffff then |b| - 22 - 0xffff else 0)
  }

  /** One central directory entry: the file it names and where the next entry starts. */
  function ReadMember(z: Platform, b: Bytes, cursor: nat): Result<(ZipEntry, nat)> {
    if cursor + 4 > |b| then Err(RangeError)
    else if U32LE(b, cursor) != CENTRAL_HEADER then Err(FormatError)
    else if cursor + 46 > |b| then Err(RangeError)
    else
      var compression, compressedSize, size := U16LE(b, cursor + 10), U32LE(b, cursor + 20), U32LE(b, cursor + 24);
      var nameLength, extraLength, commentLength := U16LE(b, cursor + 28), U16LE(b, cursor + 30), U16LE(b, cursor + 32);
      var localOffset := U32LE(b, cursor + 42);
      var path := z.utf8.decode(Subarray(b, cursor + 46, cursor + 46 + nameLength));
      if localOffset + 4 > |b| then Err(RangeError)
      else if U32LE(b, localOffset) != LOCAL_HEADER then Err(FormatError)
      else if localOffset + 30 > |b| then Err(RangeError)
      else
        var dataStart := localOffset + 30 + U16LE(b, localOffset + 26) + U16LE(b, localOffset + 28);
        var raw := Subarray(b, dataStart, dataStart + compressedSize);
        if compression != 0 && compression != 8 then Err(FormatError)
        else
          var data := if compression == 0 then Some(raw) else z.inflate(raw);
          if data.None? || |data.value| != size then Err(FormatError)
          else Ok((ZipEntry(path, data.value), cursor + 46 + nameLength + extraLength + commentLength))
  }

  /** `count` central directory entries from `cursor` on, without the directories among them. */
  function ReadMembers(z: Platform, b: Bytes, cursor: nat, count: nat): Result<seq<ZipEntry>>
    decreases count
  {
    if count == 0 then Ok([])
    else
      var first := ReadMember(z, b, cursor);
      if first.Err? then Err(first.error)
      else
        var rest := ReadMembers(z, b, first.value.1, count - 1);
        if rest.Err? then rest
        else if IsDirectoryPath(first.value.0.path) then rest
        else Ok([first.value.0] + rest.value)
  }

  /** What the reader makes of a byte string. */
  function Contents(z: Platform, b: Bytes): Result<seq<ZipEntry>> {
    var end := FindEnd(b);
    if end.None? then Err(FormatError)
    else ReadMembers(z, b, U32LE(b, end.value + 16), U16LE(b, end.value + 10))
  }

  // --- the loops -----------------------------------------------------------------

  method FindEndOfCentralDirectory(buffer: Bytes) returns (r: Option<nat>)
    ensures r == FindEnd(buffer)
  {
    var earliest: nat := if |buffer| > 22 + 0xffff then |buffer| - 22 - 0xffff else 0;
    var i := |buffer| - 22;
    while i >= earliest
      invariant i + 22 <= |buffer|
      invariant |buffer| >= 22 ==> FindEnd(buffer) == EndFrom(buffer, i, earliest)
    {
      if U32LE(buffer, i) == END_OF_CENTRAL_DIRECTORY {
        return Some(i);
      }
      i := i - 1;
    }
    r := None;
  }

  method ReadZip(z: Platform, buffer: Bytes) returns (r: Result<seq<ZipEntry>>)
    ensures r == Contents(z, buffer)
  {
    hide ReadMember;
    var end := FindEndOfCentralDirectory(buffer);
    if end.None? {
      return Err(FormatError);
    }
    var eocd := end.value;
    var count := U16LE(buffer, eocd + 10);
    var cursor := U32LE(buffer, eocd + 16);
    var entries: seq<ZipEntry> := [];
    PrependLaws([], ReadMembers(z, buffer, cursor, count));
    for i := 0 to count
      invariant Contents(z, buffer) == Prepend(entries, ReadMembers(z, buffer, cursor, count - i))
    {
      var next := ReadMember(z, buffer, cursor);
      if next.Err? {
        return Err(next.error);
      }
      PrependLaws(entries + [next.value.0], ReadMembers(z, buffer, next.value.1, count - i - 1));
      if !IsDirectoryPath(next.value.0.path) {
        entries := entries + [next.value.0];
      }
      cursor := next.value.1;
    }
    PrependLaws(entries, Ok([]));
    r := Ok(entries);
  }

  ghost function Prepend(done: seq<ZipEntry>, rest: Result<seq<ZipEntry>>): Result<seq<ZipEntry>> {
    if rest.Err? then rest else Ok(done + rest.value)
  }

  lemma PrependLaws(done: seq<ZipEntry>, rest: Result<seq<ZipEntry>>)
    ensures done == [] ==> Prepend(done, rest) == rest
    ensures Prepend(done, Ok([])) == Ok(done)
    ensures done != [] && rest.Ok? ==>
              Prepend(done, rest) == Prepend(done[..|done| - 1], Ok([done[|done| - 1]] + rest.value))
  {
    assert done + [] == done;
    if rest.Ok? && done != [] {
      assert done == done[..|done| - 1] + [done[|done| - 1]];
      assert done + rest.value == done[..|done| - 1] + ([done[|done| - 1]] + rest.value);
    } else if rest.Ok? {
      assert [] + rest.value == rest.value;
    }
  }
}

/** The registry's archive reader, written independently and much less trusting. */
module StrictReader {
  import opened ByteCodec
  import opened Wrappers
  import opened ZipFormat
  import opened ZipReader

  const MAX_PACKAGE_BYTES := 64 * 1024 * 1024
  const MAX_ENTRIES := 4096

  /** Every way of refusing is one exception here. */
  datatype Verdict<+T> = Accepted(value: T) | Refused

  type Files = map<string, Bytes>

  /** The files read so far and their total size. */
  datatype Progress = Progress(files: Files, total: nat, cursor: nat)

  function Split(s: string, at: char): (parts: seq<string>)
    ensures parts != []
  {
    if s == "" then [""]
    else
      var rest := Split(s[1..], at);
      if s[0] == at then [""] + rest else [[s[0]] + rest[0]] + rest[1..]
  }

  /** `safeArchivePath` lets the name through. */
  predicate Portable(name: string) {
    && name != ""
    && (forall i :: 0 <= i < |name| ==> '\U{21}' <= name[i] <= '\U{7e}' && name[i] != '\\')
    && name[0] != '/'
    && forall part :: part in Split(name, '/') ==> part != "" && part != "." && part != ".."
  }

  /** Inflating stops as soon as the output passes the package limit. */
  function Inflate(z: Platform, raw: Bytes): Option<Bytes> {
    var data := z.inflate(raw);
    if data.Some? && |data.value| <= MAX_PACKAGE_BYTES + 1 then data else None
  }

  function ReadMember(z: Platform, b: Bytes, p: Progress): Verdict<Progress> {
    var cursor := p.cursor;
    if cursor + 46 > |b| || U32LE(b, cursor) != 0x02014b50 then Refused
    else
      var flags, compression := U16LE(b, cursor + 8), U16LE(b, cursor + 10);
      var compressedSize, size := U32LE(b, cursor + 20), U32LE(b, cursor + 24);
      var nameLength, extraLength, commentLength := U16LE(b, cursor + 28), U16LE(b, cursor + 30), U16LE(b, cursor + 32);
      var localOffset := U32LE(b, cursor + 42);
      var next := cursor + 46 + nameLength + extraLength + commentLength;
      if next > |b| || flags % 2 != 0 then Refused
      else if compressedSize == MAX32 || size == MAX32 || localOffset == MAX32 then Refused
      else
        var name := z.utf8.decode(b[cursor + 46..cursor + 46 + nameLength]);
        if IsDirectoryPath(name) then Accepted(p.(cursor := next))
        else if !Portable(name) || name in p.files then Refused
        else if localOffset + 30 > |b| || U32LE(b, localOffset) != 0x04034b50 then Refused
        else
          var localNameLength, localExtraLength := U16LE(b, localOffset + 26), U16LE(b, localOffset + 28);
          var localName := z.utf8.decode(Subarray(b, localOffset + 30, localOffset + 30 + localNameLength));
          var dataStart := localOffset + 30 + localNameLength + localExtraLength;
          if localName != name || U16LE(b, localOffset + 8) != compression then Refused
          else if dataStart + compressedSize > |b| then Refused
          else
            var raw := b[dataStart..dataStart + compressedSize];
            if compression != 0 && compression != 8 then Refused
            else
              var data := if compression == 0 then Some(raw) else Inflate(z, raw);
              if data.None? || |data.value| != size || p.total + size > MAX_PACKAGE_BYTES then Refused
              else Accepted(Progress(p.files[name := data.value], p.total + size, next))
  }

  function ReadMembers(z: Platform, b: Bytes, p: Progress, count: nat): Verdict<Progress>
    decreases count
  {
    if count == 0 then Accepted(p)
    else
      var first := ReadMember(z, b, p);
      if first.Refused? then Refused else ReadMembers(z, b, first.value, count - 1)
  }

  /** What the reader makes of a byte string. */
  function Contents(z: Platform, b: Bytes): Verdict<Files> {
    var end := FindEnd(b);
    if end.None? then Refused
    else
      var eocd := end.value;
      var count, size, offset := U16LE(b, eocd + 10), U32LE(b, eocd + 12), U32LE(b, eocd + 16);
      if U16LE(b, eocd + 4) != 0 || U16LE(b, eocd + 6) != 0 || U16LE(b, eocd + 8) != count then Refused
      else if count == MAX16 || size == MAX32 || offset == MAX32 then Refused
      else if count > MAX_ENTRIES || offset + size > eocd then Refused
      else
        var p := ReadMembers(z, b, Progress(map[], 0, offset), count);
        if p.Refused? || p.value.cursor != offset + size then Refused else Accepted(p.value.files)
  }

  method ReadZipEntries(z: Platform, bytes: Bytes) returns (r: Verdict<Files>)
    ensures r == Contents(z, bytes)
  {
    hide ReadMember;
    if |bytes| < 22 {
      return Refused;
    }
    var firstPossibleEocd: nat := if |bytes| > 65557 then |bytes| - 65557 else 0;
    var eocd := -1;
    var at := |bytes| - 22;
    while at >= firstPossibleEocd
      invariant at + 22 <= |bytes|
      invariant eocd == -1
      invariant FindEnd(bytes) == EndFrom(bytes, at, firstPossibleEocd)
    {
      if U32LE(bytes, at) == 0x06054b50 {
        eocd := at;
        break;
      }
      at := at - 1;
    }
    if eocd == -1 {
      return Refused;
    }
    assert FindEnd(bytes) == Some(eocd);

    var count, size, offset := U16LE(bytes, eocd + 10), U32LE(bytes, eocd + 12), U32LE(bytes, eocd + 16);
    if U16LE(bytes, eocd + 4) != 0 || U16LE(bytes, eocd + 6) != 0 || U16LE(bytes, eocd + 8) != count {
      return Refused;
    }
    if count == MAX16 || size == MAX32 || offset == MAX32 {
      return Refused;
    }
    if count > MAX_ENTRIES || offset + size > eocd {
      return Refused;
    }

    var p := Progress(map[], 0, offset);
    for i := 0 to count
      invariant ReadMembers(z, bytes, Progress(map[], 0, offset), count) == ReadMembers(z, bytes, p, count - i)
    {
      var next := ReadMember(z, bytes, p);
      if next.Refused? {
        return Refused;
      }
      p := next.value;
    }
    if p.cursor != offset + size {
      return Refused;
    }
    r := Accepted(p.files);
  }
}
