/** `solwear sign`: the package it writes satisfies every verifier. */
module SignCommand {
  import opened ByteCodec
  import opened Wrappers
  import opened Sorting
  import opened Text
  import opened ZipFormat
  import opened Signing
  import opened Verifiers
  import ZipReader
  import StrictReader
  import ZipAgreement

  // --- signing ------------------------------------------------------------------------

  function PublicKeyText(c: Crypto, seed: Bytes): string {
    c.base64(c.publicKey(seed))
  }

  /** The signature document over a list of entries. */
  ghost function SignatureOver(z: Platform, c: Crypto, seed: Bytes, files: Digests): Document {
    Document(Some(SIGNATURE_VERSION), Some("ed25519"), Some(PublicKeyText(c, seed)),
             Some(c.base64(c.sign(seed, JsPayload(z, files)))), Some(files))
  }

  method SignEntries(z: Platform, c: Crypto, seed: Bytes, entries: seq<ZipEntry>) returns (d: Document)
    ensures d == SignatureOver(z, c, seed, DigestsOf(c, entries))
  {
    var files := DigestEntries(c, entries);
    var payload := SigningPayload(z, files);
    d := Document(Some(SIGNATURE_VERSION), Some("ed25519"), Some(PublicKeyText(c, seed)),
                  Some(c.base64(c.sign(seed, payload))), Some(files));
  }

  function WithoutSignature(entries: seq<ZipEntry>): (r: seq<ZipEntry>)
    ensures forall i :: 0 <= i < |r| ==> r[i].path != SIGNATURE_FILE && r[i] in entries
    ensures forall e :: e in entries && e.path != SIGNATURE_FILE ==> e in r
  {
    if entries == [] then []
    else if entries[0].path == SIGNATURE_FILE then WithoutSignature(entries[1..])
    else [entries[0]] + WithoutSignature(entries[1..])
  }

  /** What goes into the signed package. */
  ghost function SignedEntries(z: Platform, c: Crypto, seed: Bytes, files: seq<ZipEntry>): seq<ZipEntry> {
    files + [ZipEntry(SIGNATURE_FILE, c.stringify(SignatureOver(z, c, seed, DigestsOf(c, files))))]
  }

  // --- sorting the entries does not change what is verified ----------------------------

  function Record(c: Crypto, files: Digests, e: ZipEntry): Digests {
    if e.path == SIGNATURE_FILE then files else Assign(files, e.path, c.sha256(e.data))
  }

  lemma DigestsPush(c: Crypto, s: seq<ZipEntry>, e: ZipEntry)
    ensures DigestsOf(c, s + [e]) == Record(c, DigestsOf(c, s), e)
  {
    assert (s + [e])[..|s|] == s;
  }

  lemma RecordsCommute(c: Crypto, files: Digests, x: ZipEntry, y: ZipEntry)
    requires PathBefore(x, y)
    ensures Record(c, Record(c, files, x), y) == Record(c, Record(c, files, y), x)
  {
    BeforeAsymmetric(Utf16Rank, x.path, y.path);
  }

  /** Records of different paths commute; a stable sort only ever exchanges those. */
  lemma {:induction false} InsertKeepsDigests(c: Crypto, s: seq<ZipEntry>, x: ZipEntry)
    ensures DigestsOf(c, Insert(PathBefore, s, x)) == Record(c, DigestsOf(c, s), x)
    decreases |s|
  {
    if s != [] && PathBefore(x, s[|s| - 1]) {
      var front, last := s[..|s| - 1], s[|s| - 1];
      InsertKeepsDigests(c, front, x);
      DigestsPush(c, Insert(PathBefore, front, x), last);
      RecordsCommute(c, DigestsOf(c, front), x, last);
      hide Record;
      hide PathBefore;
    } else {
      DigestsPush(c, s, x);
    }
  }

  lemma {:induction false} SortKeepsDigests(c: Crypto, s: seq<ZipEntry>)
    ensures DigestsOf(c, SortByPath(s)) == DigestsOf(c, s)
    decreases |s|
  {
    if s != [] {
      SortKeepsDigests(c, s[..|s| - 1]);
      InsertKeepsDigests(c, SortByPath(s[..|s| - 1]), s[|s| - 1]);
    }
  }

  lemma {:induction false} FindUnique(entries: seq<ZipEntry>, e: ZipEntry)
    requires e in entries && forall x :: x in entries && x.path == e.path ==> x == e
    ensures FindEntry(entries, e.path) == Some(e)
  {
    if entries[0].path != e.path {
      FindUnique(entries[1..], e);
    } else {
      assert entries[0] in entries;
    }
  }

  // --- the tool accepts what it signed ---------------------------------------------------

  lemma MatchingDocument(z: Platform, c: Crypto, seed: Bytes, entries: seq<ZipEntry>, expected: string)
    requires c.Lawful() && (expected == "" || expected == PublicKeyText(c, seed))
    ensures var files := DigestsOf(c, entries);
            DocumentVerdict(z, c, entries, SignatureOver(z, c, seed, files), expected)
              == Valid(PublicKeyText(c, seed), |files|)
  {
    var files := DigestsOf(c, entries);
    CliCoversExactly(files, files);
    hide JsPayload;
    hide CliCovers;
    hide DigestsOf;
    assert Matches(files, files);
  }

  /** `es` holds the signature document over `files` as its only signature entry. */
  ghost predicate Carries(z: Platform, c: Crypto, seed: Bytes, es: seq<ZipEntry>, files: Digests) {
    FindEntry(es, SIGNATURE_FILE) == Some(ZipEntry(SIGNATURE_FILE, c.stringify(SignatureOver(z, c, seed, files))))
  }

  lemma SortedSignedCarries(z: Platform, c: Crypto, seed: Bytes, files: seq<ZipEntry>)
    requires forall e :: e in files ==> e.path != SIGNATURE_FILE
    ensures Carries(z, c, seed, SortByPath(SignedEntries(z, c, seed, files)), DigestsOf(c, files))
    ensures DigestsOf(c, SortByPath(SignedEntries(z, c, seed, files))) == DigestsOf(c, files)
  {
    var signed := SignedEntries(z, c, seed, files);
    var e := signed[|files|];
    SameElements(SortByPath(signed), signed);
    FindUnique(SortByPath(signed), e);
    SortKeepsDigests(c, signed);
    DigestsPush(c, files, e);
  }

  /** For any package, the tool accepts its own signature, with or without being told the key. */
  lemma SignedVerifies(z: Platform, c: Crypto, seed: Bytes, files: seq<ZipEntry>, expected: string)
    requires c.Lawful() && (expected == "" || expected == PublicKeyText(c, seed))
    requires forall e :: e in files ==> e.path != SIGNATURE_FILE
    ensures CliVerdict(z, c, SortByPath(SignedEntries(z, c, seed, files)), expected)
         == Valid(PublicKeyText(c, seed), |DigestsOf(c, files)|)
  {
    var es := SortByPath(SignedEntries(z, c, seed, files));
    SortedSignedCarries(z, c, seed, files);
    MatchingDocument(z, c, seed, es, expected);
    hide DocumentVerdict;
    hide SortByPath;
    hide SignedEntries;
    hide SignatureOver;
    hide DigestsOf;
  }

  /**
   * Adding or changing any signed file is noticed, and so is removing one, unless its name is
   * one every object inherits: next to the signature over `files`, the tool accepts exactly
   * the archives whose digests are all listed, with only inherited names listed beyond them.
   */
  lemma TamperingRefused(z: Platform, c: Crypto, seed: Bytes, files: seq<ZipEntry>, es: seq<ZipEntry>)
    requires c.Lawful() && Carries(z, c, seed, es, DigestsOf(c, files))
    ensures var actual, declared := DigestsOf(c, es), DigestsOf(c, files);
            CliVerdict(z, c, es, "").Valid? <==> Matches(actual, declared) && declared.Keys - actual.Keys <= INHERITED
  {
    var actual, declared := DigestsOf(c, es), DigestsOf(c, files);
    CliCoversExactly(actual, declared);
    NeedsCover(z, c, seed, es, declared);
    if CliCovers(actual, declared) {
      CoveredDocument(z, c, seed, es, declared);
    }
    hide *;
  }

  /** With ordinary file names, exactly the archives with the same digests. */
  lemma OrdinaryTamperingRefused(z: Platform, c: Crypto, seed: Bytes, files: seq<ZipEntry>, es: seq<ZipEntry>)
    requires c.Lawful() && Carries(z, c, seed, es, DigestsOf(c, files))
    requires forall path :: path in DigestsOf(c, files) ==> path !in INHERITED
    ensures CliVerdict(z, c, es, "").Valid? <==> DigestsOf(c, es) == DigestsOf(c, files)
  {
    var actual, declared := DigestsOf(c, es), DigestsOf(c, files);
    hide *;
    TamperingRefused(z, c, seed, files, es);
    EqualExactly(actual, declared);
    assert declared.Keys - actual.Keys <= INHERITED ==> declared.Keys - actual.Keys == {} by {
      assert forall path :: path in declared.Keys - actual.Keys ==> path in declared;
    }
  }

  lemma CoveredDocument(z: Platform, c: Crypto, seed: Bytes, es: seq<ZipEntry>, declared: Digests)
    requires c.Lawful() && CliCovers(DigestsOf(c, es), declared)
    ensures DocumentVerdict(z, c, es, SignatureOver(z, c, seed, declared), "").Valid?
  {
    hide JsPayload;
    hide CliCovers;
    hide DigestsOf;
  }

  lemma NeedsCover(z: Platform, c: Crypto, seed: Bytes, es: seq<ZipEntry>, declared: Digests)
    requires c.Lawful() && Carries(z, c, seed, es, declared)
    ensures CliVerdict(z, c, es, "") == DocumentVerdict(z, c, es, SignatureOver(z, c, seed, declared), "")
    ensures CliVerdict(z, c, es, "").Valid? ==> CliCovers(DigestsOf(c, es), declared)
  {
    hide CliCovers;
    hide DigestsOf;
    hide JsPayload;
  }

  // --- the command -------------------------------------------------------------------------

  lemma {:induction false} ReadsFilesOnly(z: Platform, b: Bytes, cursor: nat, count: nat)
    requires ZipReader.ReadMembers(z, b, cursor, count).Ok?
    ensures ZipAgreement.FilesOnly(ZipReader.ReadMembers(z, b, cursor, count).value)
    decreases count
  {
    hide ZipReader.ReadMember;
    if count > 0 {
      ReadsFilesOnly(z, b, ZipReader.ReadMember(z, b, cursor).value.1, count - 1);
    }
  }

  datatype SignResult = Written(archive: Bytes) | Unreadable(error: ZipError) | CannotWrite(error: ZipError)

  /** Everything the command says about a package. */
  ghost function SignOutcome(z: Platform, c: Crypto, package: Bytes, seed: Bytes): SignResult {
    var read := ZipReader.Contents(z, package);
    if read.Err? then Unreadable(read.error)
    else
      var ms := PackAll(z, SortByPath(SignedEntries(z, c, seed, WithoutSignature(read.value))));
      if Representable(ms) then Written(Archive(ms)) else CannotWrite(RangeError)
  }

  /** What is read back is exactly what was signed. */
  lemma ReadsBackSigned(z: Platform, c: Crypto, seed: Bytes, package: Bytes)
    requires z.Lawful() && ZipReader.Contents(z, package).Ok?
    ensures var signed := SortByPath(SignedEntries(z, c, seed, WithoutSignature(ZipReader.Contents(z, package).value)));
            Representable(PackAll(z, signed)) ==> ZipReader.Contents(z, Archive(PackAll(z, signed))) == Ok(signed)
  {
    hide *;
    var read := ZipReader.Contents(z, package).value;
    ContentsFilesOnly(z, package);
    SignedFilesOnly(z, c, seed, read);
    ZipAgreement.RegistryAcceptsExactly(z, SignedEntries(z, c, seed, WithoutSignature(read)));
  }

  lemma ContentsFilesOnly(z: Platform, b: Bytes)
    requires ZipReader.Contents(z, b).Ok?
    ensures ZipAgreement.FilesOnly(ZipReader.Contents(z, b).value)
  {
    hide ZipReader.ReadMembers;
    var end := ZipReader.FindEnd(b).value;
    ReadsFilesOnly(z, b, U32LE(b, end + 16), U16LE(b, end + 10));
  }

  lemma SignedFilesOnly(z: Platform, c: Crypto, seed: Bytes, read: seq<ZipEntry>)
    requires ZipAgreement.FilesOnly(read)
    ensures ZipAgreement.FilesOnly(SignedEntries(z, c, seed, WithoutSignature(read)))
  {
    var files := WithoutSignature(read);
    forall i | 0 <= i < |files|
      ensures !ZipReader.IsDirectoryPath(files[i].path)
    {
      assert files[i] in read;
    }
  }

  method SignPackageFile(z: Platform, c: Crypto, package: Bytes, seed: Bytes) returns (r: SignResult)
    requires z.Lawful() && c.Lawful()
    ensures r == SignOutcome(z, c, package, seed)
  {
    hide Archive;
    hide SortByPath;
    hide DigestsOf;
    hide Representable;
    hide ZipReader.Contents;
    hide SignatureOver;
    hide CliVerdict;
    var read := ZipReader.ReadZip(z, package);
    if read.Err? {
      return Unreadable(read.error);
    }
    var files := WithoutSignature(read.value);
    var document := SignEntries(z, c, seed, files);
    var signed := files + [ZipEntry(SIGNATURE_FILE, c.stringify(document))];
    var archive := CreateZip(z, signed);
    if archive.Err? {
      return CannotWrite(archive.error);
    }
    ReadsBackSigned(z, c, seed, package);
    SignedVerifies(z, c, seed, files, "");
    var written := ZipReader.ReadZip(z, archive.value);
    if written.Ok? {
      var check := VerifyEntries(z, c, written.value, "");
      if check.Invalid? {
        assert false;
      }
    } else {
      assert false;
    }
    r := Written(archive.value);
  }

  // --- the other two verifiers ---------------------------------------------------------------

  /** Both keep the archive as a map; the digests they compute are those of the tool. */
  lemma {:induction false} HashesOfArchive(c: Crypto, es: seq<ZipEntry>)
    ensures ActualHashes(c, ZipAgreement.AddAll(map[], es)) == DigestsOf(c, es)
    decreases |es|
  {
    if es != [] {
      HashesOfArchive(c, es[..|es| - 1]);
    }
  }

  lemma {:induction false} ArchiveHas(es: seq<ZipEntry>, e: ZipEntry)
    requires e in es && forall x :: x in es && x.path == e.path ==> x == e
    ensures e.path in ZipAgreement.AddAll(map[], es) && ZipAgreement.AddAll(map[], es)[e.path] == e.data
    decreases |es|
  {
    var last := es[|es| - 1];
    assert last in es;
    if last.path != e.path {
      ArchiveHas(es[..|es| - 1], e);
    }
  }

  lemma DigestsAreHex(c: Crypto, es: seq<ZipEntry>)
    requires c.Lawful()
    ensures AllDigests(DigestsOf(c, es)) && AllDigests(FileHashes(c, ZipAgreement.AddAll(map[], es)))
  {
    HashesOfArchive(c, es);
    hide IsHexDigest;
    var files := ZipAgreement.AddAll(map[], es);
    forall path | path in DigestsOf(c, es)
      ensures IsHexDigest(DigestsOf(c, es)[path])
    {
      assert path in ActualHashes(c, files);
    }
  }

  /** The archive of a signed package as the map the daemon and the registry verify. */
  ghost function SignedArchive(z: Platform, c: Crypto, seed: Bytes, files: seq<ZipEntry>): Files {
    ZipAgreement.AddAll(map[], SortByPath(SignedEntries(z, c, seed, files)))
  }

  lemma SignedArchiveFacts(z: Platform, c: Crypto, seed: Bytes, files: seq<ZipEntry>)
    requires c.Lawful() && forall e :: e in files ==> e.path != SIGNATURE_FILE
    ensures var m, d := SignedArchive(z, c, seed, files), DigestsOf(c, files);
            && SIGNATURE_FILE in m && c.parse(m[SIGNATURE_FILE]) == Some(SignatureOver(z, c, seed, d))
            && ActualHashes(c, m) == d && AllDigests(d) && AllDigests(FileHashes(c, m))
  {
    var signed := SignedEntries(z, c, seed, files);
    var es, e := SortByPath(signed), signed[|files|];
    SameElements(es, signed);
    ArchiveHas(es, e);
    HashesOfArchive(c, es);
    SortedSignedCarries(z, c, seed, files);
    DigestsAreHex(c, es);
    hide IsHexDigest;
    hide SortByPath;
    hide SignatureOver;
  }

  /** The registry accepts every package the tool signs, for the publisher that signed it. */
  lemma RegistryAcceptsSigned(z: Platform, c: Crypto, seed: Bytes, files: seq<ZipEntry>)
    requires c.Lawful() && forall e :: e in files ==> e.path != SIGNATURE_FILE
    ensures RegistryAccepts(z, c, SignedArchive(z, c, seed, files), PublicKeyText(c, seed))
  {
    var m, d := SignedArchive(z, c, seed, files), DigestsOf(c, files);
    SignedArchiveFacts(z, c, seed, files);
    RegistryDecides(z, c, seed, m, d, PublicKeyText(c, seed));
    hide *;
  }

  /** Next to that signature the registry accepts exactly the same digests, and only for its publisher. */
  lemma RegistryDecides(z: Platform, c: Crypto, seed: Bytes, m: Files, d: Digests, publisher: string)
    requires c.Lawful() && SIGNATURE_FILE in m && c.parse(m[SIGNATURE_FILE]) == Some(SignatureOver(z, c, seed, d))
    ensures RegistryAccepts(z, c, m, publisher) <==> publisher == PublicKeyText(c, seed) && ActualHashes(c, m) == d
  {
    assert AllDigests(ActualHashes(c, m)) by { hide IsHexDigest; }
    RegistryCoversExactly(ActualHashes(c, m), d);
    hide RegistryCovers;
    hide ActualHashes;
    hide DigestsOf;
    hide JsPayload;
    hide AllDigests;
  }

  /**
   * As bytes: what the command writes is opened by the registry exactly when its entries are
   * publishable, and then its signature check accepts it.
   */
  lemma RegistryAcceptsWritten(z: Platform, c: Crypto, seed: Bytes, package: Bytes)
    requires z.Lawful() && c.Lawful() && ZipReader.Contents(z, package).Ok?
    requires SignOutcome(z, c, package, seed).Written?
    ensures var files := WithoutSignature(ZipReader.Contents(z, package).value);
            var reading := StrictReader.Contents(z, SignOutcome(z, c, package, seed).archive);
            if ZipAgreement.Publishable(SortByPath(SignedEntries(z, c, seed, files)))
            then reading == StrictReader.Accepted(SignedArchive(z, c, seed, files))
                 && RegistryAccepts(z, c, reading.value, PublicKeyText(c, seed))
            else reading == StrictReader.Refused
  {
    var read := ZipReader.Contents(z, package).value;
    var files := WithoutSignature(read);
    var signed := SignedEntries(z, c, seed, files);
    OutcomeArchive(z, c, seed, package);
    hide *;
    ContentsFilesOnly(z, package);
    SignedFilesOnly(z, c, seed, read);
    ZipAgreement.RegistryAcceptsExactly(z, signed);
    SignedArchiveIs(z, c, seed, files);
    RegistryAcceptsSigned(z, c, seed, files);
  }

  lemma OutcomeArchive(z: Platform, c: Crypto, seed: Bytes, package: Bytes)
    requires ZipReader.Contents(z, package).Ok? && SignOutcome(z, c, package, seed).Written?
    ensures var files := WithoutSignature(ZipReader.Contents(z, package).value);
            var ms := PackAll(z, SortByPath(SignedEntries(z, c, seed, files)));
            Representable(ms) && SignOutcome(z, c, package, seed).archive == Archive(ms)
    ensures forall e :: e in WithoutSignature(ZipReader.Contents(z, package).value) ==> e.path != SIGNATURE_FILE
  {
    hide ZipReader.Contents;
    hide Archive;
    hide Representable;
    hide SortByPath;
    hide SignedEntries;
    hide WithoutSignature;
  }

  lemma SignedArchiveIs(z: Platform, c: Crypto, seed: Bytes, files: seq<ZipEntry>)
    ensures SignedArchive(z, c, seed, files) == ZipAgreement.AddAll(map[], SortByPath(SignedEntries(z, c, seed, files)))
  {
  }

  /**
   * So does the daemon, unless a file is called `__proto__`: the tool's record cannot hold
   * that name, so its digest is missing from the list. The paths have to sort alike in
   * JavaScript and in Rust, as all paths in the basic plane do.
   */
  lemma DaemonAcceptsSigned(z: Platform, c: Crypto, seed: Bytes, files: seq<ZipEntry>)
    requires z.Lawful() && c.Lawful() && SameOrder(DigestsOf(c, files).Keys)
    requires forall e :: e in files ==> e.path != SIGNATURE_FILE
    ensures DaemonDecision(z, c, SignedArchive(z, c, seed, files)) ==
              if "__proto__" in SignedArchive(z, c, seed, files) then Rejected else SignedBy(PublicKeyText(c, seed))
  {
    var d := DigestsOf(c, files);
    DigestsAreHexOnly(c, files);
    DaemonDecidesSigned(z, c, seed, files);
    PayloadsAgree(z, d);
    VerifiesOwn(c, seed, JsPayload(z, d));
    hide *;
  }

  /**
   * For one-line paths that is exactly when, unless the signature over the tool's bytes also
   * happens to hold for the different bytes the daemon rebuilds.
   */
  lemma DaemonAcceptsExactly(z: Platform, c: Crypto, seed: Bytes, files: seq<ZipEntry>)
    requires z.Lawful() && c.Lawful()
    requires var d := DigestsOf(c, files);
             c.verify(c.publicKey(seed), DaemonPayload(z, d), c.sign(seed, JsPayload(z, d)))
             ==> DaemonPayload(z, d) == JsPayload(z, d)
    requires forall e :: e in files ==> e.path != SIGNATURE_FILE && OneLine(e.path)
    ensures var m := SignedArchive(z, c, seed, files);
            DaemonDecision(z, c, m) ==
              if "__proto__" !in m && SameOrder(DigestsOf(c, files).Keys)
              then SignedBy(PublicKeyText(c, seed)) else Rejected
  {
    var d := DigestsOf(c, files);
    DigestsAreHexOnly(c, files);
    DigestLines(c, files);
    DaemonDecidesSigned(z, c, seed, files);
    PayloadsAgreeExactly(z, d);
    VerifiesOwn(c, seed, JsPayload(z, d));
    hide *;
  }

  lemma VerifiesOwn(c: Crypto, seed: Bytes, m: Bytes)
    requires c.Lawful()
    ensures c.verify(c.publicKey(seed), m, c.sign(seed, m))
  {
  }

  /** The daemon's decision rests on the names and on the bytes it rebuilds. */
  lemma DaemonDecidesSigned(z: Platform, c: Crypto, seed: Bytes, files: seq<ZipEntry>)
    requires z.Lawful() && c.Lawful() && forall e :: e in files ==> e.path != SIGNATURE_FILE
    ensures var m, d := SignedArchive(z, c, seed, files), DigestsOf(c, files);
            DaemonDecision(z, c, m) ==
              if "__proto__" !in m && c.verify(c.publicKey(seed), DaemonPayload(z, d), c.sign(seed, JsPayload(z, d)))
              then SignedBy(PublicKeyText(c, seed)) else Rejected
  {
    var m, d := SignedArchive(z, c, seed, files), DigestsOf(c, files);
    var actual := FileHashes(c, m);
    SignedArchiveFacts(z, c, seed, files);
    DaemonCoversExactly(actual, d);
    LoweredDigests(d);
    ArchiveHashes(c, m, d);
    DaemonDecides(z, c, seed, m, d);
    hide *;
  }

  lemma ArchiveHashes(c: Crypto, m: Files, d: Digests)
    requires ActualHashes(c, m) == d
    ensures FileHashes(c, m) == d <==> "__proto__" !in m
  {
    if "__proto__" in m {
      assert "__proto__" in FileHashes(c, m) && "__proto__" !in d;
    }
  }

  lemma DigestsAreHexOnly(c: Crypto, files: seq<ZipEntry>)
    requires c.Lawful()
    ensures forall p :: p in DigestsOf(c, files) ==> IsHexDigest(DigestsOf(c, files)[p])
  {
    DigestsAreHex(c, files);
  }

  lemma {:induction false} DigestLines(c: Crypto, files: seq<ZipEntry>)
    requires forall e :: e in files ==> OneLine(e.path)
    ensures forall p :: p in DigestsOf(c, files) ==> OneLine(p)
  {
    hide OneLine;
    if files != [] {
      DigestLines(c, files[..|files| - 1]);
    }
  }

  lemma DaemonDecides(z: Platform, c: Crypto, seed: Bytes, m: Files, d: Digests)
    requires c.Lawful() && SIGNATURE_FILE in m && c.parse(m[SIGNATURE_FILE]) == Some(SignatureOver(z, c, seed, d))
    requires DaemonCovers(FileHashes(c, m), d) <==> FileHashes(c, m) == d
    ensures DaemonDecision(z, c, m) ==
              if FileHashes(c, m) == d
                 && c.verify(c.publicKey(seed), DaemonPayload(z, d), c.sign(seed, JsPayload(z, d)))
              then SignedBy(PublicKeyText(c, seed)) else Rejected
  {
    hide DaemonCovers;
    hide FileHashes;
    hide JsPayload;
    hide DaemonPayload;
    assert ToLower("ed25519") == "ed25519";
  }

  // --- a name every object inherits ------------------------------------------------------

  /** The signature over `files` as an entry. */
  ghost function SignatureEntry(z: Platform, c: Crypto, seed: Bytes, files: seq<ZipEntry>): ZipEntry {
    ZipEntry(SIGNATURE_FILE, c.stringify(SignatureOver(z, c, seed, DigestsOf(c, files))))
  }

  /**
   * The tool's exception is real: sign a package whose only file is called `constructor`, take
   * the file out, and the tool still finds the package valid. The daemon and the registry refuse it.
   */
  lemma InheritedNameSlipsThrough(z: Platform, c: Crypto, seed: Bytes, data: Bytes, publisher: string)
    requires c.Lawful()
    ensures var e := SignatureEntry(z, c, seed, [ZipEntry("constructor", data)]);
            var m: Files := map[SIGNATURE_FILE := e.data];
            && CliVerdict(z, c, [e], "").Valid?
            && DaemonDecision(z, c, m) == Rejected
            && !RegistryAccepts(z, c, m, publisher)
  {
    var files := [ZipEntry("constructor", data)];
    var e := SignatureEntry(z, c, seed, files);
    var m: Files := map[SIGNATURE_FILE := e.data];
    var d := DigestsOf(c, files);
    JustConstructor(z, c, seed, data);
    hide SignatureOver;
    TamperingRefused(z, c, seed, files, [e]);
    DaemonCoversExactly(FileHashes(c, m), d);
    LoweredDigests(d);
    DaemonDecides(z, c, seed, m, d);
    RegistryDecides(z, c, seed, m, d, publisher);
    hide *;
  }

  lemma JustConstructor(z: Platform, c: Crypto, seed: Bytes, data: Bytes)
    requires c.Lawful()
    ensures var files := [ZipEntry("constructor", data)];
            var d, none: Digests, e := DigestsOf(c, files), map[], SignatureEntry(z, c, seed, files);
            && DigestsOf(c, [e]) == none && d != none && AllDigests(d) && Matches(none, d)
            && d.Keys - none.Keys <= INHERITED && AllDigests(none) && Carries(z, c, seed, [e], d)
            && FileHashes(c, map[SIGNATURE_FILE := e.data]) == none
               && ActualHashes(c, map[SIGNATURE_FILE := e.data]) == none
            && c.parse(e.data) == Some(SignatureOver(z, c, seed, d))
  {
    var files := [ZipEntry("constructor", data)];
    var e := SignatureEntry(z, c, seed, files);
    DigestsPush(c, [], files[0]);
    DigestsPush(c, [], e);
    assert [] + [files[0]] == files && [] + [e] == [e];
    var none: Digests := map[];
    assert DigestsOf(c, files) == map["constructor" := c.sha256(data)];
    hide SignatureOver;
    hide IsHexDigest;
    hide DigestsOf;
    assert none == FileHashes(c, map[SIGNATURE_FILE := e.data]);
    assert "constructor" in INHERITED;
  }
}
