/**
 * Package signatures: what is signed, and the three verifiers that have to agree on it.
 *
 * SHA-256, Ed25519, base64 and JSON are the platform's; they enter as functions
 * with the laws stated in `Lawful`.
 */
module Signing {
  import opened ByteCodec
  import opened Wrappers
  import opened Sorting
  import opened Text
  import opened ZipFormat
  import StrictReader
  import ZipAgreement

  const SIGNATURE_FILE := "signature.json"
  const SIGNATURE_VERSION := 1
  const SIGNING_PREAMBLE := "SolWear .swa signature v1\n"

  type Files = StrictReader.Files

  /** Path to hexadecimal SHA-256. */
  type Digests = map<string, string>

  /** `signature.json` as parsed; a field that is absent or of another type is None. */
  datatype Document = Document(
    version: Option<int>, algorithm: Option<string>, publicKey: Option<string>,
    signature: Option<string>, files: Option<Digests>)

  predicate IsHexDigest(s: string) {
    |s| == 64 && forall i :: 0 <= i < 64 ==> '0' <= s[i] <= '9' || 'a' <= s[i] <= 'f'
  }

  datatype Crypto = Crypto(
    sha256: Bytes -> string,
    publicKey: Bytes -> Bytes,
    usable: Bytes -> bool,
    sign: (Bytes, Bytes) -> Bytes,
    verify: (Bytes, Bytes, Bytes) -> bool,
    base64: Bytes -> string,
    /** Node's decoder never fails; Rust's refuses what is not base64. */
    nodeUnbase64: string -> Bytes,
    rustUnbase64: string -> Option<Bytes>,
    stringify: Document -> Bytes,
    parse: Bytes -> Option<Document>)
  {
    ghost predicate Lawful() {
      && (forall d :: IsHexDigest(sha256(d)))
      && (forall seed :: |publicKey(seed)| == 32 && usable(publicKey(seed)))
      && (forall seed, m :: |sign(seed, m)| == 64 && verify(publicKey(seed), m, sign(seed, m)))
      && (forall b :: nodeUnbase64(base64(b)) == b && rustUnbase64(base64(b)) == Some(b))
      && (forall d :: parse(stringify(d)) == Some(d))
    }
  }

  // --- JavaScript records --------------------------------------------------------

  /** The names every plain object inherits. */
  const INHERITED: set<string> := {
    "__proto__", "__defineGetter__", "__defineSetter__", "__lookupGetter__", "__lookupSetter__",
    "constructor", "hasOwnProperty", "isPrototypeOf", "propertyIsEnumerable",
    "toLocaleString", "toString", "valueOf"
  }

  /** `record[key] = value` for a string value: writing to `__proto__` has no effect. */
  function Assign(record: Digests, key: string, value: string): Digests {
    if key == "__proto__" then record else record[key := value]
  }

  /** `key in record` */
  predicate In(key: string, record: Digests) {
    key in record || key in INHERITED
  }

  // --- digests -----------------------------------------------------------------------

  /** What `digestEntries` computes: the own properties of the record it fills. */
  function DigestsOf(c: Crypto, entries: seq<ZipEntry>): Digests {
    if entries == [] then map[]
    else
      var files := DigestsOf(c, entries[..|entries| - 1]);
      var e := entries[|entries| - 1];
      if e.path == SIGNATURE_FILE then files else Assign(files, e.path, c.sha256(e.data))
  }

  method DigestEntries(c: Crypto, entries: seq<ZipEntry>) returns (files: Digests)
    ensures files == DigestsOf(c, entries)
  {
    files := map[];
    for i := 0 to |entries|
      invariant files == DigestsOf(c, entries[..i])
    {
      assert entries[..i + 1][..i] == entries[..i];
      if entries[i].path == SIGNATURE_FILE {
        continue;
      }
      files := Assign(files, entries[i].path, c.sha256(entries[i].data));
    }
    assert entries[..|entries|] == entries;
  }

  /** The files of an archive that the JavaScript records take part in. */
  predicate Signed(path: string) {
    path != SIGNATURE_FILE && path != "__proto__"
  }

  /** With distinct paths, the digests are those of the entries, in whatever order. */
  lemma {:induction false} DigestsMeaning(c: Crypto, entries: seq<ZipEntry>)
    requires ZipAgreement.DistinctPaths(entries)
    ensures forall path :: path in DigestsOf(c, entries) <==>
              Signed(path) && exists i :: 0 <= i < |entries| && entries[i].path == path
    ensures forall i :: 0 <= i < |entries| && Signed(entries[i].path) ==>
              entries[i].path in DigestsOf(c, entries)
              && DigestsOf(c, entries)[entries[i].path] == c.sha256(entries[i].data)
  {
    if entries != [] {
      var front := entries[..|entries| - 1];
      DigestsMeaning(c, front);
      assert forall i :: 0 <= i < |front| ==> front[i] == entries[i];
    }
  }

  lemma DigestsIgnoreOrder(c: Crypto, a: seq<ZipEntry>, b: seq<ZipEntry>)
    requires ZipAgreement.DistinctPaths(a) && ZipAgreement.DistinctPaths(b)
    requires forall e :: e in a <==> e in b
    ensures DigestsOf(c, a) == DigestsOf(c, b)
  {
    DigestsMeaning(c, a);
    DigestsMeaning(c, b);
    var f, g := DigestsOf(c, a), DigestsOf(c, b);
    forall path
      ensures path in f ==> path in g && f[path] == g[path]
      ensures path in g ==> path in f
    {
      if path in f {
        var i :| 0 <= i < |a| && a[i].path == path;
        assert a[i] in b;
      }
      if path in g {
        var i :| 0 <= i < |b| && b[i].path == path;
        assert b[i] in a;
      }
    }
  }

  // --- the listing -------------------------------------------------------------------

  ghost function Enumerate(keys: set<string>): (s: seq<string>)
    ensures multiset(s) == multiset(keys)
  {
    if keys == {} then []
    else
      var k :| k in keys;
      [k] + Enumerate(keys - {k})
  }

  /** `Object.keys(...).sort()`, or the iteration order of a BTreeMap. */
  ghost function SortedKeys(before: (string, string) -> bool, keys: set<string>): (s: seq<string>)
    ensures multiset(s) == multiset(keys)
  {
    Sort(before, Enumerate(keys))
  }

  function Line(digest: string, path: string): string {
    digest + "  " + path + "\n"
  }

  function Listing(files: Digests, paths: seq<string>): string
    requires forall p :: p in paths ==> p in files
  {
    if paths == [] then "" else Line(files[paths[0]], paths[0]) + Listing(files, paths[1..])
  }

  lemma KeysAreKeys(before: (string, string) -> bool, keys: set<string>)
    ensures forall p :: p in SortedKeys(before, keys) <==> p in keys
    ensures |SortedKeys(before, keys)| == |keys|
  {
    var s := SortedKeys(before, keys);
    forall p
      ensures p in s <==> p in keys
    {
      assert p in s <==> p in multiset(s);
    }
    assert |s| == |multiset(s)|;
  }

  ghost function ListingOf(before: (string, string) -> bool, files: Digests): string {
    KeysAreKeys(before, files.Keys);
    Listing(files, SortedKeys(before, files.Keys))
  }

  /** `signingPayload` of the package tool and `signaturePayload` of the registry. */
  ghost function JsPayload(z: Platform, files: Digests): Bytes {
    z.utf8.encode(SIGNING_PREAMBLE + ListingOf(JsBefore, files))
  }

  function ToLower(s: string): (r: string)
    ensures |r| == |s|
    ensures forall i :: 0 <= i < |s| ==> r[i] == if 'A' <= s[i] <= 'Z' then ((s[i] as int) + 32) as char else s[i]
  {
    seq(|s|, i requires 0 <= i < |s| => if 'A' <= s[i] <= 'Z' then ((s[i] as int) + 32) as char else s[i])
  }

  /** The daemon's `canonical_listing`, appended to a byte vector piece by piece. */
  function AppendLines(z: Platform, out: Bytes, files: Digests, paths: seq<string>): Bytes
    requires forall p :: p in paths ==> p in files
    decreases |paths|
  {
    if paths == [] then out
    else
      var line := out + z.utf8.encode(ToLower(files[paths[0]])) + z.utf8.encode("  ") + z.utf8.encode(paths[0])
        + z.utf8.encode("\n");
      AppendLines(z, line, files, paths[1..])
  }

  ghost function DaemonPayload(z: Platform, files: Digests): Bytes {
    KeysAreKeys(RustBefore, files.Keys);
    AppendLines(z, z.utf8.encode(SIGNING_PREAMBLE), files, SortedKeys(RustBefore, files.Keys))
  }

  /** `order` is the order in which the BTreeMap `hashes` iterates. */
  method CanonicalListing(z: Platform, hashes: Digests, order: seq<string>) returns (out: Bytes)
    requires order == SortedKeys(RustBefore, hashes.Keys)
    ensures out == DaemonPayload(z, hashes)
  {
    KeysAreKeys(RustBefore, hashes.Keys);
    out := z.utf8.encode(SIGNING_PREAMBLE);
    for i := 0 to |order|
      invariant AppendLines(z, out, hashes, order[i..]) == DaemonPayload(z, hashes)
    {
      out := out + z.utf8.encode(ToLower(hashes[order[i]]));
      out := out + z.utf8.encode("  ");
      out := out + z.utf8.encode(order[i]);
      out := out + z.utf8.encode("\n");
      assert order[i..][1..] == order[i + 1..];
    }
  }

  // --- the daemon and the tool sign the same bytes -----------------------------------

  lemma StringOrders()
    ensures IsOrder(JsBefore) && IsOrder(RustBefore)
  {
    forall a: string, b: string
      ensures JsBefore(a, b) ==> !JsBefore(b, a)
      ensures RustBefore(a, b) ==> !RustBefore(b, a)
    {
      if JsBefore(a, b) { BeforeAsymmetric(Utf16Rank, a, b); }
      if RustBefore(a, b) { BeforeAsymmetric(Utf8Rank, a, b); }
    }
    forall a: string, b: string, c: string
      ensures JsBefore(a, c) ==> JsBefore(a, b) || JsBefore(b, c)
      ensures RustBefore(a, c) ==> RustBefore(a, b) || RustBefore(b, c)
    {
      if JsBefore(a, c) { BeforeSeparates(Utf16Rank, a, b, c); }
      if RustBefore(a, c) { BeforeSeparates(Utf8Rank, a, b, c); }
    }
  }

  /** JavaScript and Rust put these names in the same order. */
  ghost predicate SameOrder(keys: set<string>) {
    forall p, q :: p in keys && q in keys ==> JsBefore(p, q) == RustBefore(p, q)
  }

  lemma BasicPlaneSameOrder(keys: set<string>)
    requires forall k :: k in keys ==> BasicPlane(k)
    ensures SameOrder(keys)
  {
    forall p, q | p in keys && q in keys
      ensures JsBefore(p, q) == RustBefore(p, q)
    {
      OrdersAgree(p, q);
    }
  }

  lemma KeysSorted(keys: set<string>)
    ensures var s, t := SortedKeys(JsBefore, keys), SortedKeys(RustBefore, keys);
            && Sorted(JsBefore, s) && Sorted(RustBefore, t) && Separates(JsBefore, s) && multiset(s) == multiset(t)
            && (forall p :: p in s <==> p in keys) && (forall p :: p in t <==> p in keys)
  {
    var s := SortedKeys(JsBefore, keys);
    StringOrders();
    SortSorted(JsBefore, Enumerate(keys));
    SortSorted(RustBefore, Enumerate(keys));
    KeysAreKeys(JsBefore, keys);
    KeysAreKeys(RustBefore, keys);
    RanksInjective();
    forall x, y | x in s && y in s && x != y
      ensures JsBefore(x, y) || JsBefore(y, x)
    {
      BeforeTotal(Utf16Rank, x, y);
    }
  }

  /** The sorted names come out alike exactly when no two of them are ordered differently. */
  lemma SameKeyOrder(keys: set<string>)
    ensures SortedKeys(JsBefore, keys) == SortedKeys(RustBefore, keys) <==> SameOrder(keys)
  {
    var s, t := SortedKeys(JsBefore, keys), SortedKeys(RustBefore, keys);
    KeysSorted(keys);
    if SameOrder(keys) {
      SortedLikewise(keys, t);
      SortedUnique(JsBefore, s, t);
    }
    if s == t {
      forall p, q | p in keys && q in keys
        ensures JsBefore(p, q) == RustBefore(p, q)
      {
        OrderOfPlaces(s, p, q);
      }
    }
    hide SortedKeys;
  }

  lemma SortedLikewise(keys: set<string>, t: seq<string>)
    requires SameOrder(keys) && Sorted(RustBefore, t) && forall p :: p in t ==> p in keys
    ensures Sorted(JsBefore, t)
  {
    forall i, j | 0 <= i < j < |t|
      ensures !JsBefore(t[j], t[i])
    {
      assert t[i] in keys && t[j] in keys;
    }
  }

  /** In a list sorted both ways, both orders are the order of places. */
  lemma OrderOfPlaces(s: seq<string>, p: string, q: string)
    requires Sorted(JsBefore, s) && Sorted(RustBefore, s) && p in s && q in s
    ensures JsBefore(p, q) == RustBefore(p, q)
  {
    var i :| 0 <= i < |s| && s[i] == p;
    var j :| 0 <= j < |s| && s[j] == q;
    RanksInjective();
    if p == q {
      Irreflexive(p);
    } else if i < j {
      BeforeTotal(Utf16Rank, p, q);
      BeforeTotal(Utf8Rank, p, q);
      assert !JsBefore(s[j], s[i]) && !RustBefore(s[j], s[i]);
    } else {
      assert j < i;
      assert !JsBefore(s[i], s[j]) && !RustBefore(s[i], s[j]);
    }
  }

  lemma Irreflexive(p: string)
    ensures !JsBefore(p, p) && !RustBefore(p, p)
  {
    if JsBefore(p, p) {
      BeforeAsymmetric(Utf16Rank, p, p);
    }
    if RustBefore(p, p) {
      BeforeAsymmetric(Utf8Rank, p, p);
    }
  }

  lemma LineBytes(z: Platform, out: string, d: string, p: string)
    requires z.Lawful()
    ensures z.utf8.encode(out) + z.utf8.encode(d) + z.utf8.encode("  ") + z.utf8.encode(p) + z.utf8.encode("\n")
         == z.utf8.encode(out + Line(d, p))
  {
    var e := z.utf8.encode;
    assert e(out + d) == e(out) + e(d);
    assert e(out + d + "  ") == e(out + d) + e("  ");
    assert e(out + d + "  " + p) == e(out + d + "  ") + e(p);
    assert e(out + d + "  " + p + "\n") == e(out + d + "  " + p) + e("\n");
    assert out + d + "  " + p + "\n" == out + Line(d, p);
  }

  lemma {:induction false} AppendedListing(z: Platform, out: string, files: Digests, paths: seq<string>)
    requires z.Lawful() && forall p :: p in paths ==> p in files && ToLower(files[p]) == files[p]
    ensures AppendLines(z, z.utf8.encode(out), files, paths) == z.utf8.encode(out + Listing(files, paths))
    decreases |paths|
  {
    hide Platform.Lawful;
    hide Line;
    hide ToLower;
    if paths == [] {
      assert out + "" == out;
    } else {
      var line := Line(files[paths[0]], paths[0]);
      LineBytes(z, out, files[paths[0]], paths[0]);
      AppendedListing(z, out + line, files, paths[1..]);
      assert out + line + Listing(files, paths[1..]) == out + Listing(files, paths);
    }
  }

  lemma DaemonPayloadIsListing(z: Platform, files: Digests)
    requires z.Lawful() && forall p :: p in files ==> IsHexDigest(files[p])
    ensures forall p :: p in SortedKeys(RustBefore, files.Keys) ==> p in files
    ensures DaemonPayload(z, files) == z.utf8.encode(SIGNING_PREAMBLE
            + Listing(files, SortedKeys(RustBefore, files.Keys)))
  {
    KeysAreKeys(RustBefore, files.Keys);
    forall p | p in files
      ensures ToLower(files[p]) == files[p]
    {
    }
    AppendedListing(z, SIGNING_PREAMBLE, files, SortedKeys(RustBefore, files.Keys));
  }

  /** The daemon rebuilds exactly the bytes the package tool signed, when both put the paths in the same order. */
  lemma PayloadsAgree(z: Platform, files: Digests)
    requires z.Lawful() && SameOrder(files.Keys) && forall p :: p in files ==> IsHexDigest(files[p])
    ensures DaemonPayload(z, files) == JsPayload(z, files)
  {
    DaemonPayloadIsListing(z, files);
    SameKeyOrder(files.Keys);
    JsPayloadUnfolds(z, files);
    hide *;
  }

  // --- the listing says what is in the archive ----------------------------------------

  predicate OneLine(path: string) {
    '\n' !in path
  }

  lemma LinesSplit(d: string, p: string, rest: string, d': string, p': string, rest': string)
    requires |d| == |d'| == 64 && OneLine(p) && OneLine(p')
    requires Line(d, p) + rest == Line(d', p') + rest'
    ensures d == d' && p == p' && rest == rest'
  {
    var s := Line(d, p) + rest;
    assert d == s[..64] == d';
    assert forall i :: 0 <= i < |p| ==> s[66 + i] == p[i] && p[i] != '\n';
    assert forall i :: 0 <= i < |p'| ==> s[66 + i] == p'[i] && p'[i] != '\n';
    assert s[66 + |p|] == '\n' && s[66 + |p'|] == '\n';
    assert |p| == |p'|;
    assert p == s[66..66 + |p|] == p';
    assert rest == s[67 + |p|..] == rest';
  }

  lemma {:induction false} ListingInjective(f: Digests, ks: seq<string>, g: Digests, ls: seq<string>)
    requires forall k :: k in ks ==> k in f && |f[k]| == 64 && OneLine(k)
    requires forall k :: k in ls ==> k in g && |g[k]| == 64 && OneLine(k)
    requires Listing(f, ks) == Listing(g, ls)
    ensures ks == ls && forall k :: k in ks ==> f[k] == g[k]
    decreases |ks|
  {
    if ks != [] && ls != [] {
      LinesSplit(f[ks[0]], ks[0], Listing(f, ks[1..]), g[ls[0]], ls[0], Listing(g, ls[1..]));
      ListingInjective(f, ks[1..], g, ls[1..]);
      assert ks == [ks[0]] + ks[1..] && ls == [ls[0]] + ls[1..];
    }
  }

  lemma PayloadIsListing(z: Platform, s: string, t: string)
    requires z.Lawful() && z.utf8.encode(SIGNING_PREAMBLE + s) == z.utf8.encode(SIGNING_PREAMBLE + t)
    ensures s == t
  {
    var a, b := SIGNING_PREAMBLE + s, SIGNING_PREAMBLE + t;
    assert a == z.utf8.decode(z.utf8.encode(a)) == z.utf8.decode(z.utf8.encode(b)) == b;
    assert s == a[|SIGNING_PREAMBLE|..] == b[|SIGNING_PREAMBLE|..] == t;
  }

  /** Two digest lists that sign to the same bytes are the same list. */
  lemma PayloadInjective(z: Platform, f: Digests, g: Digests)
    requires z.Lawful() && JsPayload(z, f) == JsPayload(z, g)
    requires forall p :: p in f ==> |f[p]| == 64 && OneLine(p)
    requires forall p :: p in g ==> |g[p]| == 64 && OneLine(p)
    ensures f == g
  {
    hide *;
    JsPayloadUnfolds(z, f);
    JsPayloadUnfolds(z, g);
    var ks, ls := SortedKeys(JsBefore, f.Keys), SortedKeys(JsBefore, g.Keys);
    KeysAreKeys(JsBefore, f.Keys);
    KeysAreKeys(JsBefore, g.Keys);
    PayloadIsListing(z, Listing(f, ks), Listing(g, ls));
    ListingInjective(f, ks, g, ls);
    SameMap(f, g, ks);
  }

  /** For one-line paths, that is the only time. */
  lemma PayloadsAgreeExactly(z: Platform, files: Digests)
    requires z.Lawful() && forall p :: p in files ==> IsHexDigest(files[p]) && OneLine(p)
    ensures DaemonPayload(z, files) == JsPayload(z, files) <==> SameOrder(files.Keys)
  {
    var js, rust := SortedKeys(JsBefore, files.Keys), SortedKeys(RustBefore, files.Keys);
    DaemonPayloadIsListing(z, files);
    JsPayloadUnfolds(z, files);
    SameKeyOrder(files.Keys);
    assert forall p :: p in files ==> |files[p]| == 64;
    hide *;
    if DaemonPayload(z, files) == JsPayload(z, files) {
      PayloadIsListing(z, Listing(files, js), Listing(files, rust));
      ListingInjective(files, js, files, rust);
    }
  }

  lemma JsPayloadUnfolds(z: Platform, f: Digests)
    ensures forall p :: p in SortedKeys(JsBefore, f.Keys) ==> p in f
    ensures JsPayload(z, f) == z.utf8.encode(SIGNING_PREAMBLE + Listing(f, SortedKeys(JsBefore, f.Keys)))
  {
    KeysAreKeys(JsBefore, f.Keys);
  }

  lemma SameMap(f: Digests, g: Digests, keys: seq<string>)
    requires forall p :: p in keys <==> p in f
    requires forall p :: p in keys <==> p in g
    requires forall p :: p in keys ==> f[p] == g[p]
    ensures f == g
  {
    assert forall p :: p in f <==> p in g;
  }
}
