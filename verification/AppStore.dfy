/** Installed apps: one directory each, replaced through a staging and a backup directory. */
module AppStore {
  import opened ByteCodec
  import opened Wrappers
  import opened Text
  import opened Sorting
  import opened FileSystem
  import opened AppId

  const MANIFEST_FILE := "manifest.json"
  const INSTALL_META := "install.json"

  datatype Manifest = Manifest(id: string, name: string, version: string, entry: string, capabilities: seq<string>)

  datatype InstallMeta = InstallMeta(installedAtMs: nat, source: string, publisherKey: Option<string>)

  datatype AppRecord = AppRecord(manifest: Manifest, installedAtMs: nat, signed: bool, publisherKey: Option<string>)

  /** The JSON forms of the two files the store itself reads. */
  datatype Formats = Formats(
    parseManifest: Bytes -> Option<Manifest>, printMeta: InstallMeta -> Bytes, parseMeta: Bytes -> Option<InstallMeta>)
  {
    ghost predicate Lawful() {
      forall m :: parseMeta(printMeta(m)) == Some(m)
    }
  }

  datatype Package = Package(manifest: Manifest, files: Tree) {
    /** What reading a package guarantees. */
    predicate Sound(formats: Formats) {
      MANIFEST_FILE in files && formats.parseManifest(files[MANIFEST_FILE]) == Some(manifest)
    }
  }

  /** What became of the downloaded bytes: parsed or not, and whether a signature on them holds. */
  datatype Reading = Unreadable | BadSignature | Verified(package: Package, publisher: Option<string>)

  datatype Request = Request(
    source: string, digest: string, reading: Reading, nowMs: nat, allowUnsigned: bool,
    expectedDigest: Option<string>, expectedPublisher: Option<string>)

  datatype Error =
    | MalformedDigest | DigestMismatch | PackageError | UnsignedPackage | OtherPublisher | NoPublisher | InvalidId
    | LockPoisoned | CannotExtract | CannotRecord | CannotPrepare | CannotActivate | NotInstalled | CannotRemove

  datatype Result<+T> = Ok(value: T) | Err(error: Error)

  /** Which calls fail during one installation, and what a failed call leaves behind. */
  datatype Faults = Faults(
    poisoned: bool, extract: Option<Option<Node>>, record: Option<Tree>, setAside: bool, activate: bool, rollBack: bool,
    cleanStaging: Removal, cleanBackup: Removal)

  // --- reading the store ---------------------------------------------------------

  function RecordFor(manifest: Manifest, meta: Option<InstallMeta>): AppRecord {
    AppRecord(
      manifest,
      if meta.Some? then meta.value.installedAtMs else 0,
      meta.Some? && meta.value.publisherKey.Some?,
      if meta.Some? then meta.value.publisherKey else None)
  }

  /** Manifest of one installed app; the id inside has to be the directory's name. */
  function ManifestOf(formats: Formats, d: Disk, id: string): (m: Option<Manifest>)
    ensures m.Some? ==> Accepted(id) && id in d && d[id].Folder? && m.value.id == id
  {
    if !Accepted(id) || id !in d || d[id].Plain? || MANIFEST_FILE !in d[id].files then None
    else
      match formats.parseManifest(d[id].files[MANIFEST_FILE])
      case None => None
      case Some(manifest) => if manifest.id == id then Some(manifest) else None
  }

  /** The record `list` shows for a directory, if it shows one. */
  function RecordOf(formats: Formats, d: Disk, name: string): (r: Option<AppRecord>)
    ensures r.Some? ==> Accepted(name) && name in d && d[name].Folder? && r.value.manifest.id == name
  {
    match ManifestOf(formats, d, name)
    case None => None
    case Some(manifest) =>
      var files := d[name].files;
      Some(RecordFor(manifest, if INSTALL_META in files then formats.parseMeta(files[INSTALL_META]) else None))
  }

  lemma RecordDependsOn(formats: Formats, d: Disk, e: Disk, name: string)
    requires SameAt(d, e, name)
    ensures RecordOf(formats, d, name) == RecordOf(formats, e, name)
  {
  }

  predicate ById(a: AppRecord, b: AppRecord) {
    RustBefore(a.manifest.id, b.manifest.id)
  }

  // --- one installation ------------------------------------------------------------

  predicate Hex(c: char) {
    '0' <= c <= '9' || 'a' <= c <= 'f' || 'A' <= c <= 'F'
  }

  function Lower(c: char): char {
    if 'A' <= c <= 'Z' then c + 32 as char else c
  }

  predicate SameIgnoringCase(a: string, b: string) {
    |a| == |b| && forall i :: 0 <= i < |a| ==> Lower(a[i]) == Lower(b[i])
  }

  predicate DigestWellFormed(digest: string) {
    |digest| == 64 && forall i :: 0 <= i < |digest| ==> Hex(digest[i])
  }

  /** The caller's demands on the package are met. */
  predicate Admissible(q: Request) {
    && (q.expectedDigest.Some? ==>
          DigestWellFormed(q.expectedDigest.value) && SameIgnoringCase(q.expectedDigest.value, q.digest))
    && q.reading.Verified?
    && (!q.allowUnsigned ==> q.reading.publisher.Some?)
    && (q.expectedPublisher.Some? ==> q.reading.publisher == q.expectedPublisher)
    && Accepted(q.reading.package.manifest.id)
  }

  function MetaOf(q: Request): InstallMeta
    requires q.reading.Verified?
  {
    InstallMeta(q.nowMs, q.source, q.reading.publisher)
  }

  /** Exactly the package's files and the new `install.json`. */
  function InstalledTree(formats: Formats, q: Request): Tree
    requires q.reading.Verified?
  {
    q.reading.package.files[INSTALL_META := formats.printMeta(MetaOf(q))]
  }

  /** The names one installation works with, and what it puts in place. */
  datatype Job = Job(id: string, staging: string, backup: string, tree: Tree) {
    predicate Distinct() {
      id != staging && id != backup && staging != backup
    }

    function Names(): set<string> {
      {id, staging, backup}
    }
  }

  /** The old version is set aside: the app is absent and its backup complete. */
  predicate SetAside(before: Disk, d: Disk, j: Job) {
    j.id in before && j.id !in d && j.backup in d && d[j.backup] == before[j.id]
  }

  /** The app is what it was, or absent with its complete old tree in the backup, or the new one. */
  predicate Whole(before: Disk, d: Disk, j: Job) {
    || SameAt(before, d, j.id)
    || SetAside(before, d, j)
    || (j.id in d && d[j.id] == Folder(j.tree))
  }

  /** No other app is touched, and this one is whole. */
  ghost predicate Intact(before: Disk, d: Disk, j: Job) {
    SameExcept(before, d, j.Names()) && Whole(before, d, j)
  }

  /** A call that touches only the staging directory. */
  lemma StagingTouched(before: Disk, p: Disk, d: Disk, j: Job)
    requires j.Distinct() && Intact(before, p, j) && SameExcept(p, d, {j.staging})
    ensures Intact(before, d, j) && SameAt(p, d, j.id) && (SetAside(before, p, j) ==> SetAside(before, d, j))
  {
    SameThrough(before, p, d, {j.staging}, j.Names());
    assert SameAt(p, d, j.id) && SameAt(p, d, j.backup);
  }

  /** `rename(target, backup)` */
  lemma OldSetAside(before: Disk, p: Disk, j: Job, fault: bool)
    requires j.Distinct() && Intact(before, p, j) && SameAt(before, p, j.id)
    requires Rename(p, j.id, j.backup, fault).Some?
    ensures var d := Rename(p, j.id, j.backup, fault).value;
            Intact(before, d, j) && SetAside(before, d, j) && SameAt(p, d, j.staging)
  {
    SameThrough(before, p, Rename(p, j.id, j.backup, fault).value, {j.id, j.backup}, j.Names());
  }

  /** `rename(staging, target)` */
  lemma NewActivated(before: Disk, p: Disk, j: Job, fault: bool)
    requires j.Distinct() && Intact(before, p, j) && j.staging in p && p[j.staging] == Folder(j.tree)
    requires Rename(p, j.staging, j.id, fault).Some?
    ensures var d := Rename(p, j.staging, j.id, fault).value;
            Intact(before, d, j) && j.id in d && d[j.id] == Folder(j.tree) && j.staging !in d
  {
    SameThrough(before, p, Rename(p, j.staging, j.id, fault).value, {j.id, j.staging}, j.Names());
  }

  /** `rename(backup, target)` */
  lemma OldPutBack(before: Disk, p: Disk, j: Job, fault: bool)
    requires j.Distinct() && Intact(before, p, j) && SetAside(before, p, j)
    ensures !fault ==> Rename(p, j.backup, j.id, fault).Some?
    ensures var r := Rename(p, j.backup, j.id, fault);
            r.Some? ==> Intact(before, r.value, j) && SameAt(before, r.value, j.id)
  {
    var r := Rename(p, j.backup, j.id, fault);
    if r.Some? {
      SameThrough(before, p, r.value, {j.id, j.backup}, j.Names());
    }
  }

  /** A call that touches only the backup directory, once the new version is in place. */
  lemma BackupTouched(before: Disk, p: Disk, d: Disk, j: Job)
    requires j.Distinct() && Intact(before, p, j) && SameExcept(p, d, {j.backup})
    requires j.id in p && p[j.id] == Folder(j.tree)
    ensures Intact(before, d, j) && SameAt(p, d, j.id) && SameAt(p, d, j.staging)
  {
    SameThrough(before, p, d, {j.backup}, j.Names());
    assert SameAt(p, d, j.id) && SameAt(p, d, j.staging);
  }

  /** Every state of the directory since `from` was intact. */
  ghost predicate AllIntact(before: Disk, from: seq<Disk>, history: seq<Disk>, j: Job) {
    from <= history && forall i :: |from| <= i < |history| ==> Intact(before, history[i], j)
  }

  lemma OneMoreIntact(before: Disk, from: seq<Disk>, history: seq<Disk>, d: Disk, j: Job)
    requires AllIntact(before, from, history, j) && Intact(before, d, j)
    ensures AllIntact(before, from, history + [d], j)
  {
  }

  lemma NothingDone(before: Disk, history: seq<Disk>, j: Job)
    ensures Intact(before, before, j) && AllIntact(before, history, history, j) && SameAt(before, before, j.id)
  {
  }

  lemma NewIsListed(formats: Formats, d: Disk, q: Request)
    requires formats.Lawful() && q.reading.Verified? && q.reading.package.Sound(formats)
    requires var id := q.reading.package.manifest.id;
             Accepted(id) && id in d && d[id] == Folder(InstalledTree(formats, q))
    ensures RecordOf(formats, d, q.reading.package.manifest.id)
         == Some(RecordFor(q.reading.package.manifest, Some(MetaOf(q))))
  {
  }

  /** Interrupted anywhere, an installation shows the old app, the new one, or none with the old one kept whole. */
  lemma WhatACrashShows(formats: Formats, before: Disk, d: Disk, j: Job, q: Request)
    requires formats.Lawful() && q.reading.Verified? && q.reading.package.Sound(formats)
    requires j.tree == InstalledTree(formats, q) && j.id == q.reading.package.manifest.id && Accepted(j.id)
    requires Intact(before, d, j)
    ensures || RecordOf(formats, d, j.id) == RecordOf(formats, before, j.id)
            || RecordOf(formats, d, j.id) == Some(RecordFor(q.reading.package.manifest, Some(MetaOf(q))))
            || (RecordOf(formats, d, j.id) == None && SetAside(before, d, j))
    ensures forall id :: id !in j.Names() ==> RecordOf(formats, d, id) == RecordOf(formats, before, id)
  {
    if j.id in d && d[j.id] == Folder(j.tree) {
      NewIsListed(formats, d, q);
    }
    hide RecordOf;
    forall id | id !in j.Names()
      ensures RecordOf(formats, d, id) == RecordOf(formats, before, id)
    {
      assert SameAt(before, d, id);
      RecordDependsOn(formats, before, d, id);
    }
    if SameAt(before, d, j.id) {
      RecordDependsOn(formats, before, d, j.id);
    }
  }

  /** A record without the installation's own part: unsigned, installed at no known time. */
  function Bare(r: Option<AppRecord>): Option<AppRecord> {
    match r
    case None => None
    case Some(record) => Some(RecordFor(record.manifest, None))
  }

  /** Part of an app's files are left, and none is changed. */
  predicate PartOf(before: Disk, d: Disk, id: string) {
    && id in before && id in d && before[id].Folder? && d[id].Folder?
    && forall f :: f in d[id].files ==> f in before[id].files && d[id].files[f] == before[id].files[f]
  }

  /** An app with only part of its files is shown while its manifest is there, and as it was while its record is. */
  lemma PartShown(formats: Formats, before: Disk, d: Disk, id: string)
    requires PartOf(before, d, id)
    ensures RecordOf(formats, d, id) ==
              if MANIFEST_FILE !in d[id].files then None
              else if INSTALL_META in d[id].files then RecordOf(formats, before, id)
              else Bare(RecordOf(formats, before, id))
  {
    hide Accepted;
  }

  /**
   * Uninstalling is not all-or-nothing. However the removal of a listed app ends: the app is
   * still listed exactly when it stopped with the manifest left, under its old record if
   * `install.json` is left too; and it is gone or unharmed exactly when the removal finished or
   * stopped before the first file.
   */
  lemma RemovalShows(formats: Formats, d: Disk, id: string, how: Removal)
    requires RecordOf(formats, d, id).Some?
    ensures var left := RemoveAll(d, id, how);
            && RecordOf(formats, left, id) ==
                 (if how.Finished? || MANIFEST_FILE !in how.left then None
                  else if INSTALL_META in how.left then RecordOf(formats, d, id)
                  else Bare(RecordOf(formats, d, id)))
            && (RecordOf(formats, left, id).Some? <==> how.Stopped? && MANIFEST_FILE in how.left)
            && (id !in left || SameAt(d, left, id) <==> how.Finished? || d[id].files.Keys <= how.left)
  {
    hide Accepted;
    var left := RemoveAll(d, id, how);
    if how.Stopped? {
      assert PartOf(d, left, id);
      PartShown(formats, d, left, id);
      SameExactlyIfAllLeft(d, id, how.left);
      if INSTALL_META !in d[id].files {
        BareWithoutMeta(formats, d, id);
      }
    }
  }

  lemma SameExactlyIfAllLeft(d: Disk, id: string, kept: set<string>)
    requires id in d && d[id].Folder?
    ensures SameAt(d, RemoveAll(d, id, Stopped(kept)), id) <==> d[id].files.Keys <= kept
  {
    var files := RemoveAll(d, id, Stopped(kept))[id].files;
    if d[id].files.Keys <= kept {
      assert files == d[id].files;
    } else {
      var f :| f in d[id].files && f !in kept;
      assert f !in files;
    }
  }

  /** An app that never had a record of its installation is bare already. */
  lemma BareWithoutMeta(formats: Formats, d: Disk, id: string)
    requires id in d && d[id].Folder? && INSTALL_META !in d[id].files
    ensures Bare(RecordOf(formats, d, id)) == RecordOf(formats, d, id)
  {
  }

  // --- listing --------------------------------------------------------------------

  /** The records of the entries seen so far, each from its own directory. */
  ghost predicate Listed(formats: Formats, d: Disk, entries: seq<string>, records: seq<AppRecord>) {
    && (forall r :: r in records ==> r.manifest.id in entries && RecordOf(formats, d, r.manifest.id) == Some(r))
    && (forall name :: name in entries && RecordOf(formats, d, name).Some? ==>
       RecordOf(formats, d, name).value in records)
    && DistinctIds(records)
  }

  predicate SameId(a: AppRecord, b: AppRecord) {
    a.manifest.id == b.manifest.id
  }

  ghost predicate DistinctIds(records: seq<AppRecord>) {
    NoneAlike(SameId, records)
  }

  lemma OneMoreListed(formats: Formats, d: Disk, entries: seq<string>, i: nat, records: seq<AppRecord>)
    requires i < |entries| && Listed(formats, d, entries[..i], records)
    requires forall j, k :: 0 <= j < k < |entries| ==> entries[j] != entries[k]
    ensures var record := RecordOf(formats, d, entries[i]);
            Listed(formats, d, entries[..i + 1], if record.Some? then records + [record.value] else records)
  {
    assert entries[..i + 1] == entries[..i] + [entries[i]];
    assert entries[i] !in entries[..i];
    ListedPush(formats, d, entries[..i], entries[i], records);
  }

  lemma ListedPush(formats: Formats, d: Disk, seen: seq<string>, name: string, records: seq<AppRecord>)
    requires Listed(formats, d, seen, records) && name !in seen
    ensures var record := RecordOf(formats, d, name);
            Listed(formats, d, seen + [name], if record.Some? then records + [record.value] else records)
  {
    hide RecordOf;
  }

  lemma AllListed(formats: Formats, d: Disk, entries: seq<string>, records: seq<AppRecord>)
    requires Listed(formats, d, entries, records) && forall name :: name in d ==> name in entries
    ensures forall r: AppRecord :: r in records <==> RecordOf(formats, d, r.manifest.id) == Some(r)
  {
    forall r: AppRecord | RecordOf(formats, d, r.manifest.id) == Some(r)
      ensures r in records
    {
      assert r.manifest.id in d;
    }
    hide RecordOf;
  }

  lemma SortedById(records: seq<AppRecord>)
    requires DistinctIds(records)
    ensures forall i, k :: 0 <= i < k < |Sort(ById, records)| ==>
              RustBefore(Sort(ById, records)[i].manifest.id, Sort(ById, records)[k].manifest.id)
  {
    ByIdIsOrder();
    SortSorted(ById, records);
    SortNoneAlike(ById, SameId, records);
    var s := Sort(ById, records);
    forall i, k | 0 <= i < k < |s|
      ensures RustBefore(s[i].manifest.id, s[k].manifest.id)
    {
      RanksInjective();
      BeforeTotal(Utf8Rank, s[i].manifest.id, s[k].manifest.id);
      assert !ById(s[k], s[i]);
    }
  }

  lemma ByIdIsOrder()
    ensures IsOrder(ById)
  {
    forall a, b | ById(a, b)
      ensures !ById(b, a)
    {
      BeforeAsymmetric(Utf8Rank, a.manifest.id, b.manifest.id);
    }
    forall a, b, c | ById(a, c)
      ensures ById(a, b) || ById(b, c)
    {
      BeforeSeparates(Utf8Rank, a.manifest.id, b.manifest.id, c.manifest.id);
    }
  }
}
