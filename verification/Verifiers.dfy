/** The three signature verifiers and what each of them accepts. */
module Verifiers {
  import opened ByteCodec
  import opened Wrappers
  import opened Sorting
  import opened Text
  import opened ZipFormat
  import opened Signing

  // --- the package tool ------------------------------------------------------------

  datatype Reason = NoSignature | BadJson | BadAlgorithm | BadVersion | MissingFields | OtherKey
                  | NotCovered | BadKey | BadSignature

  datatype Verdict = Valid(publicKey: string, fileCount: nat) | Invalid(reason: Reason)

  /** The file list describes the archive, as the tool's two loops with `in` decide it. */
  predicate CliCovers(actual: Digests, declared: Digests) {
    && (forall path :: path in actual ==> In(path, declared) && path in declared && declared[path] == actual[path])
    && (forall path :: path in declared ==> In(path, actual))
  }

  function FindEntry(entries: seq<ZipEntry>, path: string): Option<ZipEntry> {
    if entries == [] then None
    else if entries[0].path == path then Some(entries[0])
    else FindEntry(entries[1..], path)
  }

  ghost function CliVerdict(z: Platform, c: Crypto, entries: seq<ZipEntry>, expected: string): Verdict {
    var entry := FindEntry(entries, SIGNATURE_FILE);
    if entry.None? then Invalid(NoSignature)
    else
      var parsed := c.parse(entry.value.data);
      if parsed.None? then Invalid(BadJson)
      else DocumentVerdict(z, c, entries, parsed.value, expected)
  }

  ghost function DocumentVerdict(z: Platform, c: Crypto, entries: seq<ZipEntry>, document: Document,
      expected: string): Verdict {
    if document.algorithm != Some("ed25519") then Invalid(BadAlgorithm)
    else if document.version != Some(SIGNATURE_VERSION) then Invalid(BadVersion)
    else if document.publicKey.None? || document.signature.None? then Invalid(MissingFields)
    else if expected != "" && expected != document.publicKey.value then Invalid(OtherKey)
    else
      var actual := DigestsOf(c, entries);
      var declared := if document.files.Some? then document.files.value else map[];
      if !CliCovers(actual, declared) then Invalid(NotCovered)
      else
        var key := c.nodeUnbase64(document.publicKey.value);
        if |key| != 32 || !c.usable(key) then Invalid(BadKey)
        else if !c.verify(key, JsPayload(z, declared), c.nodeUnbase64(document.signature.value))
          then Invalid(BadSignature)
        else Valid(document.publicKey.value, |actual|)
  }

  method Keys(files: Digests) returns (keys: seq<string>)
    ensures multiset(keys) == multiset(files.Keys)
  {
    keys := [];
    var rest := files.Keys;
    while rest != {}
      invariant rest <= files.Keys
      invariant multiset(keys) + multiset(rest) == multiset(files.Keys)
    {
      var key :| key in rest;
      keys, rest := keys + [key], rest - {key};
    }
  }

  /** `Object.keys(files).sort()` */
  method SortedPaths(files: Digests) returns (keys: seq<string>)
    ensures keys == SortedKeys(JsBefore, files.Keys)
    ensures forall k :: k in keys <==> k in files
  {
    keys := Keys(files);
    KeyOrderIsUnique(files.Keys, keys);
    KeysAreKeys(JsBefore, files.Keys);
    keys := Sort(JsBefore, keys);
  }

  method SigningPayload(z: Platform, files: Digests) returns (payload: Bytes)
    ensures payload == JsPayload(z, files)
  {
    var keys := SortedPaths(files);
    payload := z.utf8.encode(SIGNING_PREAMBLE + Listing(files, keys));
  }

  lemma KeyOrderIsUnique(keys: set<string>, listed: seq<string>)
    requires multiset(listed) == multiset(keys)
    ensures Sort(JsBefore, listed) == SortedKeys(JsBefore, keys)
  {
    StringOrders();
    RanksInjective();
    forall x, y | x in listed && y in listed && x != y
      ensures JsBefore(x, y) || JsBefore(y, x)
    {
      BeforeTotal(Utf16Rank, x, y);
    }
    SortUnique(JsBefore, listed, Enumerate(keys));
  }

  method Covers(actual: Digests, declared: Digests) returns (covers: bool)
    ensures covers == CliCovers(actual, declared)
  {
    var rest := actual.Keys;
    while rest != {}
      invariant rest <= actual.Keys
      invariant forall path :: path in actual && path !in rest ==>
                  In(path, declared) && path in declared && declared[path] == actual[path]
    {
      var path :| path in rest;
      if !In(path, declared) {
        return false;
      }
      // An inherited property is a function or an object, never the digest string.
      if path !in declared || declared[path] != actual[path] {
        return false;
      }
      rest := rest - {path};
    }
    rest := declared.Keys;
    while rest != {}
      invariant rest <= declared.Keys
      invariant forall path :: path in declared && path !in rest ==> In(path, actual)
    {
      var path :| path in rest;
      if !In(path, actual) {
        return false;
      }
      rest := rest - {path};
    }
    covers := true;
  }

  method VerifyEntries(z: Platform, c: Crypto, entries: seq<ZipEntry>, expected: string) returns (v: Verdict)
    ensures v == CliVerdict(z, c, entries, expected)
  {
    var entry := FindEntry(entries, SIGNATURE_FILE);
    if entry.None? {
      return Invalid(NoSignature);
    }
    var parsed := c.parse(entry.value.data);
    if parsed.None? {
      return Invalid(BadJson);
    }
    var document := parsed.value;
    if document.algorithm != Some("ed25519") {
      return Invalid(BadAlgorithm);
    }
    if document.version != Some(SIGNATURE_VERSION) {
      return Invalid(BadVersion);
    }
    if document.publicKey.None? || document.signature.None? {
      return Invalid(MissingFields);
    }
    if expected != "" && expected != document.publicKey.value {
      return Invalid(OtherKey);
    }
    var actual := DigestEntries(c, entries);
    var declared := if document.files.Some? then document.files.value else map[];
    var covers := Covers(actual, declared);
    if !covers {
      return Invalid(NotCovered);
    }
    var key := c.nodeUnbase64(document.publicKey.value);
    if |key| != 32 || !c.usable(key) {
      return Invalid(BadKey);
    }
    var payload := SigningPayload(z, declared);
    if !c.verify(key, payload, c.nodeUnbase64(document.signature.value)) {
      return Invalid(BadSignature);
    }
    v := Valid(document.publicKey.value, |actual|);
  }

  // --- the daemon --------------------------------------------------------------------

  /** `file_hashes` */
  function FileHashes(c: Crypto, files: Files): Digests {
    map path | path in files && path != SIGNATURE_FILE :: c.sha256(files[path])
  }

  /** Count plus one-way inclusion, ignoring the case of the declared digests. */
  predicate DaemonCovers(actual: Digests, declared: Digests) {
    && |actual| == |declared|
    && forall path :: path in actual ==> path in declared && ToLower(declared[path]) == ToLower(actual[path])
  }

  datatype DaemonVerdict = Unsigned | SignedBy(publicKey: string) | Rejected

  ghost function DaemonDecision(z: Platform, c: Crypto, files: Files): DaemonVerdict {
    if SIGNATURE_FILE !in files then Unsigned
    else
      var parsed := c.parse(files[SIGNATURE_FILE]);
      if parsed.None? || parsed.value.version.None? || parsed.value.algorithm.None? || parsed.value.publicKey.None?
         || parsed.value.signature.None? || parsed.value.files.None?
      then Rejected
      else
        var d := parsed.value;
        var actual := FileHashes(c, files);
        if d.version.value != SIGNATURE_VERSION || ToLower(d.algorithm.value) != "ed25519" then Rejected
        else if !DaemonCovers(actual, d.files.value) then Rejected
        else
          var key, sig := c.rustUnbase64(d.publicKey.value), c.rustUnbase64(d.signature.value);
          if key.None? || |key.value| != 32 || !c.usable(key.value) then Rejected
          else if sig.None? || |sig.value| != 64 || !c.verify(key.value, DaemonPayload(z, actual), sig.value)
            then Rejected
          else SignedBy(d.publicKey.value)
  }

  // --- the registry --------------------------------------------------------------------

  /** The record the registry fills with digests: writing to `__proto__` has no effect. */
  function ActualHashes(c: Crypto, files: Files): Digests {
    FileHashes(c, files) - {"__proto__"}
  }

  /** Sorted lists compared element by element, with only lowercase digests let through. */
  ghost predicate RegistryCovers(actual: Digests, declared: Digests) {
    var a, d := SortedKeys(JsBefore, actual.Keys), SortedKeys(JsBefore, declared.Keys);
    |a| == |d| && forall i :: 0 <= i < |a| ==> Agree(actual, declared, a[i], d[i])
  }

  predicate Agree(actual: Digests, declared: Digests, path: string, listed: string) {
    path in actual && listed == path && path in declared && IsHexDigest(declared[path])
      && declared[path] == actual[path]
  }

  /** `canonicalBase64`: the text decodes to `n` bytes and is their only encoding. */
  predicate Canonical(c: Crypto, text: string, n: nat) {
    |c.nodeUnbase64(text)| == n && c.base64(c.nodeUnbase64(text)) == text
  }

  /** The part of `verifyPackageEntries` that is about the signature. */
  ghost predicate RegistryAccepts(z: Platform, c: Crypto, files: Files, publisherKey: string) {
    && SIGNATURE_FILE in files
    && c.parse(files[SIGNATURE_FILE]).Some?
    && var d := c.parse(files[SIGNATURE_FILE]).value;
    && d.version == Some(1) && d.algorithm == Some("ed25519")
    && d.publicKey.Some? && Canonical(c, d.publicKey.value, 32)
    && d.signature.Some? && Canonical(c, d.signature.value, 64)
    && d.publicKey.value == publisherKey
    && d.files.Some?
    && var actual := ActualHashes(c, files);
    && RegistryCovers(actual, d.files.value)
    && c.usable(c.nodeUnbase64(publisherKey))
    && c.verify(c.nodeUnbase64(publisherKey), JsPayload(z, actual), c.nodeUnbase64(d.signature.value))
  }

  method DaemonCoverage(actual: Digests, declared: Digests) returns (covers: bool)
    ensures covers == DaemonCovers(actual, declared)
  {
    if |actual| != |declared| {
      return false;
    }
    var rest := actual.Keys;
    while rest != {}
      invariant rest <= actual.Keys
      invariant forall path :: path in actual && path !in rest ==>
                  path in declared && ToLower(declared[path]) == ToLower(actual[path])
    {
      var path :| path in rest;
      if path !in declared || ToLower(declared[path]) != ToLower(actual[path]) {
        return false;
      }
      rest := rest - {path};
    }
    covers := true;
  }

  method RegistryCoverage(actual: Digests, declared: Digests) returns (covers: bool)
    ensures covers == RegistryCovers(actual, declared)
  {
    hide SortedKeys;
    hide IsHexDigest;
    var actualPaths := SortedPaths(actual);
    var declaredPaths := SortedPaths(declared);
    if |actualPaths| != |declaredPaths| {
      return false;
    }
    for i := 0 to |actualPaths|
      invariant forall j :: 0 <= j < i ==> Agree(actual, declared, actualPaths[j], declaredPaths[j])
    {
      var path := actualPaths[i];
      assert path in actual && declaredPaths[i] in declared;
      if declaredPaths[i] != path {
        return false;
      }
      if !IsHexDigest(declared[path]) || declared[path] != actual[path] {
        return false;
      }
    }
    covers := true;
  }

  // --- one decision on coverage ----------------------------------------------------------

  ghost predicate AllDigests(files: Digests) {
    forall path :: path in files ==> IsHexDigest(files[path])
  }

  function Lowered(files: Digests): Digests {
    map path | path in files :: ToLower(files[path])
  }

  lemma SameSize<T>(a: set<T>, b: set<T>)
    requires a <= b && |a| == |b|
    ensures a == b
  {
    if x :| x in b && x !in a {
      assert a <= b - {x};
      Subset(a, b - {x});
    }
  }

  lemma Subset<T>(a: set<T>, b: set<T>)
    requires a <= b
    ensures |a| <= |b|
  {
    assert b == a + (b - a);
  }

  lemma HexIsLower(s: string)
    requires IsHexDigest(s)
    ensures ToLower(s) == s
  {
  }

  /** The daemon's count and one-way inclusion amount to equality up to the case of digits. */
  lemma DaemonCoversExactly(actual: Digests, declared: Digests)
    requires AllDigests(actual)
    ensures DaemonCovers(actual, declared) <==> Lowered(declared) == actual
  {
    hide ToLower;
    hide IsHexDigest;
    forall path | path in actual
      ensures ToLower(actual[path]) == actual[path]
    {
      HexIsLower(actual[path]);
    }
    assert Lowered(declared).Keys == declared.Keys;
    assert |actual| == |actual.Keys| && |declared| == |declared.Keys|;
    if DaemonCovers(actual, declared) {
      SameSize(actual.Keys, declared.Keys);
      assert forall path :: path in declared <==> path in declared.Keys;
    }
  }

  /** The registry's pairwise comparison amounts to equality. */
  lemma RegistryCoversExactly(actual: Digests, declared: Digests)
    requires AllDigests(actual)
    ensures RegistryCovers(actual, declared) <==> declared == actual
  {
    var a, d := SortedKeys(JsBefore, actual.Keys), SortedKeys(JsBefore, declared.Keys);
    KeysAreKeys(JsBefore, actual.Keys);
    KeysAreKeys(JsBefore, declared.Keys);
    hide SortedKeys;
    hide IsHexDigest;
    if RegistryCovers(actual, declared) {
      assert forall i :: 0 <= i < |a| ==> Agree(actual, declared, a[i], d[i]) && a[i] == d[i];
      assert a == d;
      forall path
        ensures path in actual <==> path in declared
        ensures path in actual ==> declared[path] == actual[path]
      {
        assert path in actual <==> path in a;
        assert path in declared <==> path in d;
      }
    }
  }

  /** Every file of the archive is listed with its digest. */
  ghost predicate Matches(actual: Digests, declared: Digests) {
    forall path :: path in actual ==> path in declared && declared[path] == actual[path]
  }

  /** The tool's two loops let through names every JavaScript object inherits. */
  lemma CliCoversExactly(actual: Digests, declared: Digests)
    ensures CliCovers(actual, declared) <==> Matches(actual, declared) && declared.Keys - actual.Keys <= INHERITED
  {
  }

  lemma EqualExactly(actual: Digests, declared: Digests)
    ensures declared == actual <==> Matches(actual, declared) && declared.Keys - actual.Keys == {}
  {
    if Matches(actual, declared) && declared.Keys - actual.Keys == {} {
      forall path | path in declared
        ensures path in actual
      {
        assert path !in declared.Keys - actual.Keys;
      }
    }
  }

  lemma LoweredDigests(declared: Digests)
    requires AllDigests(declared)
    ensures Lowered(declared) == declared
  {
    hide ToLower;
    hide IsHexDigest;
    forall path | path in declared
      ensures ToLower(declared[path]) == declared[path]
    {
      HexIsLower(declared[path]);
    }
  }

  /**
   * On a list of lowercase digests the three verifiers decide alike, and the decision is
   * equality with the archive's digests, unless the list names, beyond the archive's
   * files, only properties inherited by every object: exactly then the tool alone accepts.
   */
  lemma ThreeVerifiersOneDecision(actual: Digests, declared: Digests)
    requires AllDigests(actual) && AllDigests(declared)
    ensures DaemonCovers(actual, declared) <==> declared == actual
    ensures RegistryCovers(actual, declared) <==> declared == actual
    ensures declared == actual ==> CliCovers(actual, declared)
    ensures CliCovers(actual, declared) && declared != actual <==>
              Matches(actual, declared) && {} < declared.Keys - actual.Keys <= INHERITED
  {
    hide *;
    DaemonCoversExactly(actual, declared);
    RegistryCoversExactly(actual, declared);
    CliCoversExactly(actual, declared);
    EqualExactly(actual, declared);
    LoweredDigests(declared);
  }
}
