# SolWear OS, verified

A Dafny model of the parts of SolWear OS that have real protocol or algorithmic
content, with proofs that hold for every input, every run or every reachable
state. `dafny verify dfyconfig.toml` checks all of it.

## What is modelled

**The `.swa` package and its signature.** `ZipFormat` is the archive writer, field
by field in buffers, against the layout of sections 4.3.7, 4.3.12 and 4.3.16 of the
PKWARE .ZIP File Format Specification. `ZipReaders` holds the two independent
readers: the package tool's lenient one (`ZipReader`) and the registry's strict one
(`StrictReader`). `ZipTheorems` proves the round trip; `ZipAgreement` proves when
the strict reader accepts what the writer writes, what each reader accepts on
arbitrary bytes, and when the strict one refines the lenient one. `Signing` has the
digest list, the two ways of building the bytes that are signed, when they agree and
their injectivity; `Verifiers` has the three verifiers (package tool, daemon,
registry) and their agreement; `SignCommand` is `solwear sign` as a whole. `Crc32`
proves the lookup table against the bit-at-a-time definition.

**The WebSocket connection** of the emulator host (sections 5.2 to 5.4 of
RFC 6455): `WebSocket` is the parser as an object with in-place masking, and as a
state machine; `WebSocketTheorems` proves independence of chunking, the frame
round trip over all three length encodings, and delivery of fragmented messages
with control frames in between.

**Signing requests and their confirmation.** `Access` decides who a message comes
from and what it may call. `Confirmation` is the daemon's shared state and the
protocol in atomic steps, with any number of requests, answers, shells, timeouts
and lock changes interleaved; `ConfirmationSafety` is its inductive invariant and
`ConfirmationTheorems` what follows for every run.

**The wallet.** `Keystore` is the key file, its replacement and the wallet object;
`KeystoreTheorems` covers every run of creating, loading, protecting, locking,
unlocking, signing, restarting and crashing between any two file system calls.

**The app store.** `FileSystem` is one directory whose calls may each fail;
`AppStore` says what an installation, a removal and a listing mean; `AppStoreThreads`
runs any number of installers and uninstallers step by step; `StoreObject` is the
store's object, whose installation is such an installer on its own; `AppId` is the
id grammar that keeps the store's own directories out of reach.

**The shell's JSON-RPC client.** `RpcClient` is the client object and its handlers,
`RpcClientTheorems` the client against a daemon that answers in any order over
connections that are lost at any time (sections 4 and 5 of the JSON-RPC 2.0
specification).

**Registry history and fast algorithms.** `Registry` has the one-pass validator and
the merge of a publish, `Base58` the encoder and the decoder, `Levenshtein` the
two-row edit distance and the suggestion built on it.

`Sorting` is the stable sort behind `Array.prototype.sort`, `Text` the two string
orders, decimal numerals and UTF-8, `ByteCodec` bytes and words.

SHA-256, Ed25519, Argon2id, ChaCha20-Poly1305, deflate, base64, UTF-8 and JSON are
functions with stated laws (`Platform.Lawful`, `Crypto.Lawful`, `Vault.Lawful`,
`Formats.Lawful`). Clocks, randomness, the file system's failures and the network
are parameters or steps.

## What turned out not to hold

- The package tool's coverage check tests names with JavaScript's `in`, which also
  finds inherited names: a list that names `constructor` or `toString` next to an
  archive without such a file is accepted by the tool and refused by the daemon and
  the registry. `sdk/cli/SIGNING.md` promises that the list describes exactly the
  archive. Exact condition: `Verifiers.CliCoversExactly`, and for whole archives
  `SignCommand.TamperingRefused`; example, as a package:
  `SignCommand.InheritedNameSlipsThrough`.
- A file called `__proto__` is not recorded by `digestEntries`, so the daemon
  rejects such a package although the tool signed and verified it
  (`SignCommand.DaemonAcceptsSigned`).
- JavaScript sorts paths by UTF-16 units and Rust by UTF-8 bytes
  (`Text.OrdersDisagree`). The daemon rebuilds the signed bytes exactly when no two
  paths of the package are ordered differently: `Signing.PayloadsAgreeExactly`. When it
  rebuilds other bytes it rejects the package, unless the signature over the tool's
  bytes happens to hold for those too: `SignCommand.DaemonAcceptsExactly`.
- The strict reader does not look at the local records of directories, the lenient
  one does: `ZipAgreement.ReadersDisagree`. The exact condition in
  `ZipAgreement.StrictRefinesLenient` is that each directory's local record is there,
  in a known format, with data of the declared size.
- After a close the WebSocket connection still handles one frame per call, so
  chunking matters from then on: `WebSocketTheorems.ChunkingMattersAfterClose`.
- An approval sent in the instant between the timer and the end of the wait is
  reported as delivered and then ignored. In every run an approval counts exactly
  when it was sent before the timer fired
  (`ConfirmationTheorems.ApprovalCountsExactly`); then only the lock at the signing
  step matters (`TimelyApprovalSigns`), and later nothing does
  (`LateApprovalIsIgnored`).
- A wallet creation cut short can leave part of the seed, or an empty file, after
  which no start ever succeeds: `KeystoreTheorems.BrokenForGood`, exactly when in
  `BrokenExactlyWhen`.
- `set_passphrase` can fail and still have replaced the key file:
  `KeystoreTheorems.FailedYetReplaced` gives the exact condition.
- Uninstalling is not all-or-nothing: `AppStore.RemovalShows` says for every way a
  removal can end whether the app is still listed, and that it is gone or unharmed
  exactly when the removal finished or stopped before the first file.
- While an app's files are being removed it is still listed until its manifest is
  gone, unsigned and without an install time once `install.json` is:
  `AppStoreThreads.ListedIsInstalled`.
- A call whose parameters JSON cannot express is rejected and stays pending until
  its timer fires: `RpcClientTheorems.UnsendableStaysPending`. In a run without such a
  call, pending and unsettled are the same: `PendingExactlyUnsettled`.
- `base58` of no bytes at all reads back as one zero byte:
  `Base58.DecodesWhatItEncodes` is an equivalence for that reason.

## Model

| member | source | states |
|---|---|---|
| Crc32.ShiftsLinear | sdk/cli/src/zip.ts:27-35 | the shift register is linear over exclusive or, for any number of steps |
| Crc32.LookupIsEightShifts | sdk/cli/src/zip.ts:27-39 | one table lookup and one byte shift are eight single-bit steps of the register, for every register |
| Crc32.TableStep | sdk/cli/src/zip.ts:39 | one turn of the table-driven loop is one step of the bit-at-a-time definition |
| Crc32.Crc32 | sdk/cli/src/zip.ts:37-41 | the table-driven checksum is the bit-at-a-time CRC-32 (as in store/registry/test.mjs) of every byte string |
| ZipFormat.LocalHeader | sdk/cli/src/zip.ts:63-74 | the 30 bytes filled field by field are the one byte string with these local header fields |
| ZipFormat.CentralHeader | sdk/cli/src/zip.ts:77-94 | the 46 bytes are the one byte string with these central header fields |
| ZipFormat.EndRecord | sdk/cli/src/zip.ts:101-109 | the 22 bytes are the one byte string with these end record fields |
| ZipFormat.CentralHeaderUnique | sdk/cli/src/zip.ts:77-94 | a central header's fields determine all of its bytes |
| ZipFormat.CreateZip | sdk/cli/src/zip.ts:47-112 | the archive is the path-sorted entries' data area, directory and end record; a RangeError exactly when a name, size, count or offset does not fit its field |
| ZipReader.FindEndOfCentralDirectory | sdk/cli/src/zip.ts:161-168 | the last end record signature within the last 65557 bytes, or none |
| ZipReader.ReadZip | sdk/cli/src/zip.ts:117-159 | the entries, or the format or range error, of the member-by-member reading |
| StrictReader.ReadZipEntries | store/registry/verify-packages.mjs:63-157 | the path-to-data map, or the refusal, of the strict member-by-member reading |
| ZipTheorems.ReadsLocated | sdk/cli/src/zip.ts:123-156 | whatever else an archive holds, a member with its headers in place is read as its path and data |
| ZipTheorems.RoundTrip | sdk/cli/src/zip.ts:47-159 | reading what the writer wrote gives back the entries sorted by path, without directories, with compression undone |
| ZipAgreement.RegistryAcceptsExactly | store/registry/verify-packages.mjs:53-157 | the strict reader accepts a written archive exactly when every path is portable and used once, with at most 4096 files of 64 MiB in all; then both readers return the same contents |
| ZipAgreement.StrictRefinesLenient | store/registry/verify-packages.mjs:63-157 | on any bytes the strict reader accepts, both readers use the same end record, the lenient one accepts exactly when the skipped directories have readable local records, and they return the same files |
| ZipAgreement.FilesAreReadable | store/registry/verify-packages.mjs:63-157 | bytes the strict reader accepts whose entries name no directory are accepted by the lenient reader, with distinct paths and the same files |
| ZipAgreement.LenientAcceptsExactly | sdk/cli/src/zip.ts:117-159 | on any bytes, the lenient reader accepts exactly when there is an end record and every entry it counts has its header and a readable local record |
| ZipAgreement.StrictAcceptsExactly | store/registry/verify-packages.mjs:63-157 | on any bytes, the strict reader accepts exactly when each entry is sound on its own, no file name repeats, the declared sizes stay within 64 MiB and the directory has its declared length |
| ZipAgreement.ReadersDisagree | store/registry/verify-packages.mjs:117 | an archive of one dangling directory: accepted by the strict reader, refused by the lenient one |
| ZipAgreement.ListingOrderIsImmaterial | sdk/cli/src/zip.ts:43-48 | entries with distinct paths give the same archive in whatever order they were listed |
| ZipAgreement.SortedPermutation | sdk/cli/src/zip.ts:48 | the entries written are those given, in path order |
| Signing.DigestEntries | sdk/cli/src/signing.ts:42-49 | the record filled by the loop, including what a plain object does with `__proto__` |
| Signing.DigestsMeaning | sdk/cli/src/signing.ts:41-49 | for distinct paths the digests are exactly those of the entries that take part in the signature |
| Signing.DigestsIgnoreOrder | sdk/cli/src/signing.ts:41-49 | the digests do not depend on the order of the entries |
| Signing.CanonicalListing | os/solweard/src/package.rs:250-259 | the daemon's listing, built piece by piece in map order |
| Signing.PayloadsAgree | os/solweard/src/package.rs:248-259 | the daemon rebuilds byte for byte what the tool signed, for lower-case digests and paths both languages sort alike |
| Signing.PayloadsAgreeExactly | os/solweard/src/package.rs:248-259 | for one-line paths, exactly then |
| Signing.BasicPlaneSameOrder | sdk/cli/src/signing.ts:51-58 | paths in the basic multilingual plane sort alike |
| Text.OrdersDisagree | sdk/cli/src/signing.ts:51-58 | two names that JavaScript and Rust order differently |
| Signing.PayloadInjective | sdk/cli/src/signing.ts:52-58 | two digest lists with 64-character digests and one-line paths that sign to the same bytes are equal |
| Verifiers.SigningPayload | sdk/cli/src/signing.ts:52-58 | the preamble and one line for each path in UTF-16 order |
| Verifiers.Covers | sdk/cli/src/signing.ts:196-206 | the two loops with `in` decide two-way coverage up to inherited names |
| Verifiers.VerifyEntries | sdk/cli/src/signing.ts:169-220 | the verdict, with the checks in this order |
| Verifiers.DaemonCoverage | os/solweard/src/package.rs:174-196 | count plus one-way inclusion, ignoring case |
| Verifiers.RegistryCoverage | store/registry/verify-packages.mjs:222-237 | sorted pairwise comparison |
| Verifiers.DaemonCoversExactly | os/solweard/src/package.rs:174-196 | one-way inclusion with equal counts accepts exactly the lists that are the archive's digests up to letter case |
| Verifiers.RegistryCoversExactly | store/registry/verify-packages.mjs:222-237 | the pairwise comparison accepts exactly the archive's digest map |
| Verifiers.CliCoversExactly | sdk/cli/src/signing.ts:196-206 | the two loops accept exactly the lists that match the archive and add no names but inherited ones |
| Verifiers.ThreeVerifiersOneDecision | sdk/cli/src/signing.ts:198-206 | on lower-case digests the three checks accept exactly the archive's digest map, the tool's up to inherited names |
| SignCommand.SignEntries | sdk/cli/src/signing.ts:146-158 | the document over exactly these entries' digests |
| SignCommand.SortKeepsDigests | sdk/cli/src/zip.ts:48 | sorting the entries for the archive does not change their digests, repeated paths included |
| SignCommand.SignedVerifies | sdk/cli/src/commands/sign.ts:63-85 | the tool accepts what it signed, for any entries, with or without being told the key |
| SignCommand.TamperingRefused | sdk/cli/src/signing.ts:196-206 | next to that signature, exactly the archives are accepted whose digests are all listed, with only inherited names listed beyond them |
| SignCommand.OrdinaryTamperingRefused | sdk/cli/src/signing.ts:196-206 | with no file named like an inherited property, exactly the archives with the same digests |
| SignCommand.InheritedNameSlipsThrough | sdk/cli/src/signing.ts:204-206 | sign a package of one file called `constructor` and take the file out: the tool finds the package valid, the daemon and the registry refuse it |
| SignCommand.ReadsBackSigned | sdk/cli/src/commands/sign.ts:72-78 | the rewritten package reads back as exactly the entries that were signed and one signature file |
| SignCommand.SignPackageFile | sdk/cli/src/commands/sign.ts:63-85 | reads, strips, signs and rewrites; the check of the written file never fails |
| SignCommand.RegistryAcceptsSigned | store/registry/verify-packages.mjs:210-248 | the registry's signature check accepts every package the tool signs, as a map of files, for its publisher |
| SignCommand.RegistryDecides | store/registry/verify-packages.mjs:210-248 | next to a signature over given digests, the registry's signature check accepts exactly the packages with those digests, for that publisher only |
| SignCommand.RegistryAcceptsWritten | store/registry/verify-packages.mjs:63-248 | the bytes the command writes are opened by the strict reader exactly when their entries are publishable, and then pass the signature check |
| SignCommand.DaemonAcceptsSigned | os/solweard/src/package.rs:157-224 | so does the daemon, unless a file is called `__proto__`, for paths both languages sort alike |
| SignCommand.DaemonDecidesSigned | os/solweard/src/package.rs:157-224 | whatever the paths, the daemon accepts a signed package exactly when no file is called `__proto__` and the tool's signature holds for the bytes the daemon rebuilds |
| SignCommand.DaemonAcceptsExactly | os/solweard/src/package.rs:157-224 | for one-line paths, exactly then, if the signature over the tool's bytes does not also hold for different bytes the daemon rebuilds |
| WebSocket.WebSocketConnection.OnDataReceived | emulator/host/src/ws.mjs:45-53 | one call drains the buffer as the state machine does |
| WebSocket.WebSocketConnection.ReadFrame | emulator/host/src/ws.mjs:56-99 | takes one complete frame, waits, or closes on an oversized length |
| WebSocket.WebSocketConnection.HandleFrame | emulator/host/src/ws.mjs:101-129 | answers pings, collects fragments, emits whole messages, closes |
| WebSocket.WebSocketConnection.SendFrame | emulator/host/src/ws.mjs:131-149 | writes one final unmasked frame, or nothing once closed |
| WebSocket.WebSocketConnection.Close | emulator/host/src/ws.mjs:159-168 | sends the close frame, ends the socket and announces it, once |
| WebSocket.WebSocketConnection.OnClose | emulator/host/src/ws.mjs:170-174 | a lost socket is announced once |
| WebSocket.Unmask | emulator/host/src/ws.mjs:93-95 | masking in place is the byte-wise exclusive or with the key |
| WebSocketTheorems.ReadIsStable | emulator/host/src/ws.mjs:56-99 | a decision on the bytes at hand is not changed by bytes that arrive later |
| WebSocketTheorems.DrainGrows | emulator/host/src/ws.mjs:45-53 | draining early and again after more bytes is draining once |
| WebSocketTheorems.ChunkingIsImmaterial | emulator/host/src/ws.mjs:45-129 | any two ways of cutting a byte stream give the same messages, replies and close, up to and including the first close |
| WebSocketTheorems.ChunkingMattersAfterClose | emulator/host/src/ws.mjs:47-52 | on a closed connection the same bytes in one or two chunks emit one or two messages |
| WebSocketTheorems.LogOnlyGrows | emulator/host/src/ws.mjs:45-53 | what happened up to the first close is never undone by later chunks |
| WebSocketTheorems.MaskingCancels | emulator/host/src/ws.mjs:92-95 | masking twice with one key is the identity |
| WebSocketTheorems.FrameRoundTrips | emulator/host/src/ws.mjs:56-149 | what one side encodes, masked or not, the other reads back with whatever follows, for every payload up to 8 MiB; longer ones are refused |
| WebSocketTheorems.DrainMessage | emulator/host/src/ws.mjs:101-129 | a text message in any fragments with pings and pongs in between is emitted once, as the concatenation, after every ping has been answered with its payload |
| WebSocketTheorems.MessageDelivered | emulator/host/src/ws.mjs:45-129 | the same for bytes that arrive in any chunks |
| WebSocketTheorems.ClosingHandshake | emulator/host/src/ws.mjs:108-121 | a close frame is answered with status 1000, an unknown opcode with 1002, in a frame the peer can read |
| WebSocketTheorems.OversizeIsRefused | emulator/host/src/ws.mjs:74-81 | a length above 8 MiB is answered with status 1009 |
| WebSocketTheorems.SilentAfterClose | emulator/host/src/ws.mjs:131-132 | once closed, nothing is sent, ended or announced again |
| Access.CapabilityIsNamespace | os/solweard/src/rpc.rs:70-72 | the capability is what comes before the first dot |
| Access.ShellNamespaceIsPrivate | os/solweard/src/server.rs:154-166 | nothing from an app's connection or stamped as an app reaches the shell namespace; an app's connection always runs as that app |
| Access.AppsCallWhatTheyDeclare | os/solweard/src/rpc.rs:75-106 | an app may call exactly the namespaces its installed manifest declares, apart from the shell's |
| Confirmation.DaemonState.RegisterShell | os/solweard/src/state.rs:198-202 | one more open link, with nothing pushed to it yet |
| Confirmation.DaemonState.NextSequence | os/solweard/src/state.rs:192-194 | the counter's old value, and one more from then on |
| Confirmation.DaemonState.ShellConnected | os/solweard/src/state.rs:204-208 | drops closed links; true exactly when one was open |
| Confirmation.DaemonState.PushEvent | os/solweard/src/state.rs:212-216 | every open link receives the event, closed ones are dropped, in one pass |
| Confirmation.DaemonState.RemovePending | os/solweard/src/state.rs:307-312 | takes the sender out of the table, or finds none |
| Confirmation.DaemonState.Ask | os/solweard/src/state.rs:256-274 | without an open shell nothing is numbered, listed or shown; otherwise the next number is listed and its prompt pushed |
| Confirmation.DaemonState.Resolve | os/solweard/src/state.rs:307-317 | the sender leaves the table; delivered exactly when it was there and its receiver still is, and then that channel alone holds the answer |
| ConfirmationSafety.ShapesKept | os/solweard/src/state.rs:256-317 | every step keeps what each point of a request's life says about its channel and prompt |
| ConfirmationSafety.LinksKept | os/solweard/src/state.rs:264-317 | every step keeps each sender in exactly one place: table, answerer, used or dropped |
| ConfirmationSafety.TracesKept | os/solweard/src/rpc.rs:289-297 | every sender in an answerer's hands belongs to the request with that id, and answerers are shells |
| ConfirmationTheorems.InvariantKept | os/solweard/src/state.rs:256-317 | the whole invariant is inductive |
| ConfirmationTheorems.EverySignatureWasApproved | os/solweard/src/rpc.rs:379-424 | in every run, each signature belongs to one request whose only prompt carried the digest of exactly the signed bytes and whose delivered answer was an approval from a shell's own connection |
| ConfirmationTheorems.AnsweredAtMostOnce | os/solweard/src/state.rs:307-317 | at most one answer is delivered for each request id |
| ConfirmationTheorems.SignaturesMatchRequests | os/solweard/src/rpc.rs:411-415 | one signature for each request at most, none for a request that did not end as signed, and ids never repeat |
| ConfirmationTheorems.RefusedNeverSigns | os/solweard/src/state.rs:283-289 | a delivered refusal rules out a signature |
| ConfirmationTheorems.TableNeverLeaks | os/solweard/src/state.rs:264-280 | every entry of the table is the id of a request that waits or is about to remove it |
| ConfirmationTheorems.NoWaiterIsLost | os/solweard/src/state.rs:264-293 | while a request waits unanswered its sender is in the table or with someone about to send, so the branch for a lost sender is never taken |
| ConfirmationTheorems.EveryRequestEnds | os/solweard/src/state.rs:276-305 | an unfinished request can always take a step of its own, each brings it nearer its end, and nobody else's step moves it |
| ConfirmationTheorems.TimelyApprovalSigns | os/solweard/src/rpc.rs:411-424 | an approval sent before the timer fires is delivered, and every run that finishes the request reaches its signing step, where it is signed unless the wallet is locked at that moment |
| ConfirmationTheorems.ApprovalOnItsWay | os/solweard/src/state.rs:256-317 | runs reach a request that waits with its approval on the way, before and after the timer |
| ConfirmationTheorems.LateApprovalIsIgnored | os/solweard/src/state.rs:276-317 | an approval sent later never counts: every run that finishes the request ends it rejected and unsigned; it is reported as delivered exactly while the receiver is still there |
| ConfirmationTheorems.ApprovalCountsExactly | os/solweard/src/state.rs:276-317 | a finished request was signed or found locked exactly when its approval was sent before the timer fired |
| ConfirmationTheorems.SomeApprovalSigns | os/solweard/src/rpc.rs:411-424 | in every reachable state with an approval about to be sent to a waiting request and the wallet unlocked, a run of four steps ends with its signature |
| ConfirmationTheorems.SomeApprovalIsIgnored | os/solweard/src/state.rs:276-317 | in every reachable state with an approval about to be sent after the timer fired, a run of four steps reports it as delivered and ends the request rejected and unsigned |
| ConfirmationTheorems.AskIsARun | os/solweard/src/state.rs:256-274 | a request's steps up to its wait, or to its refusal when no shell is open, change the shared state as the daemon's own methods do one after another |
| ConfirmationTheorems.ResolveIsARun | os/solweard/src/state.rs:307-317 | an answer's steps, one or two, change the shared state, the channel and the report as `Resolve` does, from every reachable state |
| Keystore.Open | os/solweard/src/wallet.rs:55-109 | opens a seed or a document, or creates a wallet, or fails, as specified for every fault |
| Keystore.Wallet.SetPassphrase | os/solweard/src/wallet.rs:129-176 | every disk state on the way, the wallet left in memory and the answer |
| Keystore.Wallet.Replace | os/solweard/src/wallet.rs:254-262 | every disk state of writing beside the key file and renaming over it |
| Keystore.Wallet.Unlock | os/solweard/src/wallet.rs:188-231 | the key, or the error, and nothing else changed |
| KeystoreTheorems.SoundKept | os/solweard/src/wallet.rs:55-262 | every operation and every crash inside one keeps: the key file is a raw seed with the wallet's public key or a document sealing one, memory holds no other key, locked implies protected, sealed stays sealed |
| KeystoreTheorems.OneKeyForGood | os/solweard/src/wallet.rs:55-262 | over every run a wallet keeps one public key, every key it holds has it, and a sealed key file stays sealed |
| KeystoreTheorems.OneSeedForGood | os/solweard/src/wallet.rs:55-262 | for a seed that shares its public key with no other, the key file and memory hold that very seed over every run |
| KeystoreTheorems.EveryRunIsSound | os/solweard/src/wallet.rs:55-262 | every run from an empty disk has no wallet yet, a broken creation, or one sound wallet |
| KeystoreTheorems.BrokenForGood | os/solweard/src/wallet.rs:62-93 | part of a seed on disk keeps every later start from opening a wallet |
| KeystoreTheorems.BrokenExactlyWhen | os/solweard/src/wallet.rs:264-283 | creation, crashed or returning its error, leaves that exactly when the file was made and the write stopped before the end of the seed |
| KeystoreTheorems.SignsOnlyUnlocked | os/solweard/src/wallet.rs:233-239 | signing works exactly while unlocked, with a key that has the wallet's public key |
| KeystoreTheorems.PassphraseOpens | os/solweard/src/wallet.rs:129-231 | after a passphrase is set, in every run that does not rename another document over the key file, giving it brings a key with the wallet's public key back, after a start if the daemon is down; from a locked wallet, the very seed that was sealed |
| KeystoreTheorems.ReplacedExactlyWhen | os/solweard/src/wallet.rs:129-262 | a step, crashed or complete, leaves a wallet's key file as it is, or makes it the new document exactly when it gets as far as the rename |
| KeystoreTheorems.ProtectOpens | os/solweard/src/wallet.rs:129-186 | a passphrase that was set opens the new key file, and the wallet can be locked |
| KeystoreTheorems.FailedYetReplaced | os/solweard/src/wallet.rs:254-262 | a failed change replaced the key file exactly when only fixing the permissions failed; memory is then out of date |
| AppId.AcceptedExactly | os/solweard/src/manifest.rs:96-128 | the label-by-label check accepts exactly the strings of one grammar |
| AppId.PrivateNames | os/solweard/src/apps.rs:201-209 | staging and backup names are never app ids and never collide |
| StoreObject.Store.InstallBytes | os/solweard/src/apps.rs:147-258 | all or nothing with a failure possible at every call: success leaves exactly the package and its record, failure the old app or, if putting it back failed too, its complete tree in the backup; at every moment in between it is whole; nothing else changes; and the calls are those of one installer of the concurrent model |
| StoreObject.Store.Uninstall | os/solweard/src/apps.rs:260-274 | succeeds exactly when the app was there and every removal worked; otherwise says what is left and whether it is still listed |
| StoreObject.Store.List | os/solweard/src/apps.rs:96-116 | exactly the records of the app directories, each once, in id order |
| AppStore.OldPutBack | os/solweard/src/apps.rs:241-245 | putting the old version back works unless the rename itself fails |
| AppStore.WhatACrashShows | os/solweard/src/apps.rs:96-116 | interrupted anywhere, an installation shows the old app, the new one, or none with the old one kept whole |
| AppStore.RemovalShows | os/solweard/src/apps.rs:260-274 | however a removal ends, the app is still listed exactly when the manifest is left, and gone or unharmed exactly when all or none of its files are |
| AppStore.PartShown | os/solweard/src/apps.rs:81-116 | what is shown of an app with only part of its files |
| AppStoreThreads.CallKeepsUp | os/solweard/src/apps.rs:211-258 | each file system call of the thread at work keeps the app current or set aside |
| AppStoreThreads.InvariantKept | os/solweard/src/apps.rs:201-274 | the invariant is inductive over every step of any number of threads |
| AppStoreThreads.OneAtATime | os/solweard/src/apps.rs:201-214 | at most one thread is inside, and no two share a staging or backup directory |
| AppStoreThreads.ListedIsInstalled | os/solweard/src/apps.rs:81-116 | at every moment the list shows what the effects so far installed, under each record's own id; an app set aside is not shown, one being removed is shown by its remaining manifest and install record, and no staging or backup directory ever is |
| AppStoreThreads.RunsAreSerial | os/solweard/src/apps.rs:201-274 | a finished run leaves what its effects, one at a time, make; success means exactly one effect, failure no installation and no removal |
| AppStoreThreads.NothingIsLost | os/solweard/src/apps.rs:241-245 | an old version that could not be put back stays complete in its backup for the rest of the run |
| RpcClient.JsonRpcClient.ConnectSocket | os/shell/src/rpc.ts:72-76 | a new socket unless closed or connected |
| RpcClient.JsonRpcClient.OnDrop | os/shell/src/rpc.ts:87-99 | the current socket's loss rejects every pending call and schedules a reconnect; another socket's does nothing |
| RpcClient.JsonRpcClient.FailAll | os/shell/src/rpc.ts:185-191 | clears each pending call's timer and rejects it |
| RpcClient.JsonRpcClient.CallMethod | os/shell/src/rpc.ts:111-138 | registers and sends a call, or refuses it when not connected |
| RpcClient.JsonRpcClient.ReceiveMessage | os/shell/src/rpc.ts:155-183 | settles the one pending call with that id |
| RpcClientTheorems.InvariantKept | os/shell/src/rpc.ts:72-191 | the client's invariant is inductive over connects, losses, calls, timers, replies and reconnects |
| RpcClientTheorems.RepliesReachTheirCalls | os/shell/src/rpc.ts:165-182 | in every run a settled call got exactly what the daemon computed for the one request with its id |
| RpcClientTheorems.SettledForGood | os/shell/src/rpc.ts:123-131 | a settled promise never changes |
| RpcClientTheorems.PendingMeansTimed | os/shell/src/rpc.ts:122-131 | one live timer for each pending call and for nothing else; every unsettled promise is pending |
| RpcClientTheorems.OneReconnectPerLoss | os/shell/src/rpc.ts:87-96 | each lost socket schedules at most one reconnect, after 250 to 5000 ms |
| RpcClientTheorems.DelaysDouble | os/shell/src/rpc.ts:79-94 | 250, 500, 1000, 2000, 4000, then 5000 ms without a success in between; an open starts over |
| RpcClientTheorems.LossSettlesEverything | os/shell/src/rpc.ts:87-106 | losing the socket settles all waiting calls at once; closing the client settles none |
| RpcClientTheorems.UnsendableStaysPending | os/shell/src/rpc.ts:122-136 | parameters JSON cannot express reject the promise and leave the call pending until its timer |
| RpcClientTheorems.NotSendableComesFrom | os/shell/src/rpc.ts:111-138 | a step leaves a promise in that state exactly when it was there or the step is such a call, made while connected |
| RpcClientTheorems.PendingExactlyUnsettled | os/shell/src/rpc.ts:111-191 | in every run without such a call, a call is pending exactly while its promise is unsettled |
| Registry.PairExactly | store/registry/validate.mjs:92-93 | the `id@version` key identifies the pair, whatever characters ids contain |
| Registry.CheckRegistrySemantics | store/registry/validate.mjs:77-130 | one pass reports exactly the real problems with the right earlier index, and none exactly when the registry is in order |
| Registry.CleanMeansInOrder | store/registry/validate.mjs:77-130 | no uniqueness, ordering or contiguity problem means each id's entries are side by side with strictly rising versions, and the other way round |
| Registry.RegistryFile.MergeIntoRegistry | sdk/cli/src/commands/publish.ts:123-154 | refused exactly for unreadable, shapeless or already published; warns exactly when a newer version exists; otherwise the sorted old entries and the new one |
| Registry.MergedIsInOrder | sdk/cli/src/commands/publish.ts:146-153 | an accepted merge keeps every entry and the validator finds nothing wrong with it |
| Registry.PublishedStaysInOrder | sdk/cli/src/commands/publish.ts:146-153 | publishing a new version to a registry in order leaves it in order |
| Registry.PublishingCommutes | sdk/cli/src/commands/publish.ts:146-153 | two versions published in either order leave the same index |
| Base58.RebaseTwice | emulator/host/src/daemon.mjs:31-44 | rewriting digits in another base and back, leading zeros counted, is the identity |
| Base58.Base58Encode | emulator/host/src/daemon.mjs:31-44 | the loops compute the base-58 numeral behind one `1` for each leading zero byte |
| Base58.Base58Decode | tests/e2e/harness.mjs:259-276 | the loops compute the bytes of that number behind the leading zeros, or refuse |
| Base58.DecodesWhatItEncodes | tests/e2e/harness.mjs:258-276 | decoding an encoding gives the bytes back exactly when there are any |
| Base58.EncodesWhatItDecodes | tests/e2e/harness.mjs:258-276 | every non-empty base58 string is the encoding of what it decodes to |
| Levenshtein.NoShorterWay | sdk/cli/src/args.ts:109-121 | every chain of single-character edits is at least as long as the distance |
| Levenshtein.SomeWay | sdk/cli/src/args.ts:109-121 | and there is one exactly that long |
| Levenshtein.EditDistance | sdk/cli/src/args.ts:109-121 | the two-row computation is the least number of single-character edits |
| Levenshtein.Closest | sdk/cli/src/args.ts:96-107 | the first of the nearest candidates, exactly when one is within two edits |

## Left out

- Wrap-around of the 64-bit counters (`next_id`, `next_staging_id`): they are natural numbers here.
- The inside of deflate, SHA-256, Ed25519, Argon2id, ChaCha20-Poly1305, base64 and JSON, and the Rust `zip` crate: functions with laws.
- The daemon's own archive reader: it is the `zip` crate; the daemon's verifier starts from the map of files.
- Lone surrogates in JavaScript strings: strings are sequences of characters.
- Digest values in `signature.json` that are not strings, and documents that are JSON `null`: both make the tool fail in ways the model does not distinguish.
- The rest of `verifyPackageEntries`: required files, manifest fields and the registry entry's own fields are single comparisons.
- ZipReader.ReadZip: its contract names the member-by-member reading; what that accepts is `ZipAgreement.LenientAcceptsExactly`, and what it returns is proved for written archives and for everything the strict reader accepts.
- StrictReader.ReadZipEntries: likewise, with `ZipAgreement.StrictAcceptsExactly`; the order in which refusals are decided is not stated, only that there is one.
- Verifiers.VerifyEntries: reasons are kinds, not message texts.
- Confirmation: notifications and wallet activity lists; other users of the counter and of pushed events are steps without content. A poisoned mutex ends the daemon and is not modelled. That the timer fires after 90 seconds is a step that may happen at any time.
- Confirmation: decoding a message from base64, base58 or hex; a request carries its bytes.
- Keystore: `unlock` racing `set_passphrase` on two threads; operations are whole apart from crashes. Files changed by anyone but the daemon.
- KeystoreTheorems.OneSeedForGood: asks that the wallet's own seed shares its public key with no other; `OneKeyForGood`, by public key, asks nothing.
- AppStore: the download, and symbolic links and subdirectories as such; a tree is its files by path. Several daemons sharing one apps directory: the lock is one process's.
- AppStoreThreads.ListedIsInstalled: one moment for each record; a list that reads a manifest before a replacement and `install.json` after it can mix the two.
- StoreObject.Store.List: likewise one moment for the whole directory, although the store reads it entry by entry without the lock.
- StoreObject.Store.Uninstall: one call for the whole removal; the files going one by one are the steps of `AppStoreThreads`.
- AppStoreThreads: a thread that panics while holding the lock; every later operation then fails at the lock, which `StoreObject.Store.InstallBytes` and `Uninstall` do cover.
- RpcClient: event and status handlers that call back into the client while it is handling an event; the URL it connects to.
- Registry: prerelease suffixes and version components above 2^53, and the validator's checks of single fields.
- Base58: strings outside the basic plane, where JavaScript walks characters by code point.
- Levenshtein: strings outside the basic plane, where JavaScript counts two UTF-16 units for one character.
- HTTP serving, rendering, watchfaces, device access, scripts and images.
