/** The device keystore: a raw seed file that a passphrase turns into an encrypted document. */
module Keystore {
  import opened ByteCodec
  import opened Wrappers

  const SEED_LEN := 32
  const FORMAT_VERSION := 1
  const ALGORITHM := "argon2id+chacha20poly1305"
  const DEFAULT_NAME := "SolWear"
  const MIN_PASSPHRASE := 8
  const MAX_NAME := 32

  datatype Document = Document(
    version: nat, algorithm: string, name: string, publicKey: string, salt: string, nonce: string, ciphertext: string)

  /** The libraries the wallet stands on; keys and seeds are bytes. */
  datatype Vault = Vault(
    publicKey: Bytes -> string, sign: (Bytes, Bytes) -> string,
    derive: (string, Bytes) -> Option<Bytes>,
    seal: (Bytes, Bytes, Bytes) -> Bytes, unseal: (Bytes, Bytes, Bytes) -> Option<Bytes>,
    base64: Bytes -> string, fromBase64: string -> Option<Bytes>,
    encode: Document -> Bytes, decode: Bytes -> Option<Document>, trim: string -> string)
  {
    ghost predicate Lawful() {
      && (forall key, nonce, plain :: unseal(key, nonce, seal(key, nonce, plain)) == Some(plain))
      && (forall b :: fromBase64(base64(b)) == Some(b))
      && (forall d :: decode(encode(d)) == Some(d))
      && (forall b :: decode(b).Some? ==> |b| > SEED_LEN)
    }
  }

  // --- the key file and the calls on it ---------------------------------------------

  datatype Disk = Disk(key: Option<Bytes>, temporary: Option<Bytes>)

  /** How creating and filling a file goes. */
  datatype Writing = Fine | CannotCreate | StopsAfter(n: nat)

  datatype Faults = Faults(
    directory: bool, read: bool, permissions: bool, removal: bool, writing: Writing, rename: bool, encoding: bool)

  /** `write_private`: never over an existing file, and a failed write may leave a part. */
  function WritePrivate(there: Option<Bytes>, bytes: Bytes, how: Writing): (r: (Option<Bytes>, bool))
    ensures r.1 ==> r.0 == Some(bytes)
  {
    if there.Some? then (there, false)
    else
      match how
      case Fine => (Some(bytes), true)
      case CannotCreate => (None, false)
      case StopsAfter(n) => (Some(bytes[..if n < |bytes| then n else |bytes|]), false)
  }

  /** What the disk holds after each call of `replace_private`, and whether all of them worked. */
  function ReplacePrivate(d: Disk, bytes: Bytes, faults: Faults): (r: (seq<Disk>, bool))
    ensures r.0 != []
  {
    var cleared := if faults.removal then d else d.(temporary := None);
    var (written, ok) := WritePrivate(cleared.temporary, bytes, faults.writing);
    var filled := cleared.(temporary := written);
    if !ok || faults.rename then ([cleared, filled], false)
    else ([cleared, filled, Disk(written, None)], !faults.permissions)
  }

  // --- operations ------------------------------------------------------------------

  datatype Memory = Memory(signingKey: Option<Bytes>, encrypted: Option<Document>, publicKey: string)

  /** The disk, and the wallet in memory while the daemon runs. */
  datatype Device = Device(disk: Disk, memory: Option<Memory>)

  datatype Reply = Ok | SignedWith(signature: string) | InvalidParams | Rejected | Internal

  /** What the disk holds after each call, the wallet left in memory, and the answer. */
  datatype Effect = Effect(disks: seq<Disk>, memory: Option<Memory>, reply: Reply)

  predicate Supported(d: Document) {
    d.version == FORMAT_VERSION && d.algorithm == ALGORITHM
  }

  function LoadOrCreate(v: Vault, d: Disk, seed: Bytes, faults: Faults): (e: Effect) {
    if faults.directory then Effect([], None, Internal)
    else if d.key.Some? then
      Effect([], Load(v, d.key.value, faults), if Load(v, d.key.value, faults).Some? then Ok else Internal)
    else
      var (written, ok) := WritePrivate(None, seed, faults.writing);
      Effect([d.(key := written)],
             if ok then Some(Memory(Some(seed), None, v.publicKey(seed))) else None,
             if ok then Ok else Internal)
  }

  /** The wallet a key file with these bytes opens as. */
  function Load(v: Vault, bytes: Bytes, faults: Faults): Option<Memory> {
    if faults.read || faults.permissions then None
    else if |bytes| == SEED_LEN then Some(Memory(Some(bytes), None, v.publicKey(bytes)))
    else
      match v.decode(bytes)
      case None => None
      case Some(document) =>
        if Supported(document) then Some(Memory(None, Some(document), document.publicKey)) else None
  }

  function NameFor(v: Vault, name: string): string {
    var trimmed := v.trim(name);
    if trimmed == "" then DEFAULT_NAME else if |trimmed| <= MAX_NAME then trimmed else trimmed[..MAX_NAME]
  }

  function Encrypt(v: Vault, m: Memory, name: string, key: Bytes, salt: Bytes, nonce: Bytes): Document
    requires m.signingKey.Some?
  {
    Document(FORMAT_VERSION, ALGORITHM, NameFor(v, name), m.publicKey, v.base64(salt), v.base64(nonce),
             v.base64(v.seal(key, nonce, m.signingKey.value)))
  }

  function SettingPassphrase(
    v: Vault, d: Disk, m: Memory, passphrase: string, name: string, salt: Bytes, nonce: Bytes, faults: Faults): Effect
  {
    if |passphrase| < MIN_PASSPHRASE then Effect([], Some(m), InvalidParams)
    else if m.signingKey.None? then Effect([], Some(m), Rejected)
    else
      match v.derive(passphrase, salt)
      case None => Effect([], Some(m), Internal)
      case Some(key) =>
        if faults.encoding then Effect([], Some(m), Internal)
        else
          var document := Encrypt(v, m, name, key, salt, nonce);
          var (disks, ok) := ReplacePrivate(d, v.encode(document), faults);
          if ok then Effect(disks, Some(m.(encrypted := Some(document))), Ok) else Effect(disks, Some(m), Internal)
  }

  function Locking(m: Memory): Effect {
    if m.encrypted.None? then Effect([], Some(m), InvalidParams) else Effect([], Some(m.(signingKey := None)), Ok)
  }

  /** The seed inside a document, or the error opening it gives. */
  function Decrypt(v: Vault, d: Document, passphrase: string): (r: (Option<Bytes>, Reply))
    ensures r.0.Some? ==> |r.0.value| == SEED_LEN
  {
    match (v.fromBase64(d.salt), v.fromBase64(d.nonce), v.fromBase64(d.ciphertext))
    case (Some(salt), Some(nonce), Some(ciphertext)) =>
      if |salt| != 16 || |nonce| != 12 then (None, Internal)
      else
        (match v.derive(passphrase, salt)
         case None => (None, Internal)
         case Some(key) =>
           match v.unseal(key, nonce, ciphertext)
           case None => (None, Rejected)
           case Some(seed) => if |seed| == SEED_LEN then (Some(seed), Ok) else (None, Internal))
    case _ => (None, Internal)
  }

  function Unlocking(v: Vault, m: Memory, passphrase: string): Effect {
    if m.signingKey.Some? then Effect([], Some(m), Ok)
    else if m.encrypted.None? then Effect([], Some(m), Internal)
    else
      var (seed, reply) := Decrypt(v, m.encrypted.value, passphrase);
      if seed.None? then Effect([], Some(m), reply)
      else if v.publicKey(seed.value) != m.publicKey then Effect([], Some(m), Internal)
      else Effect([], Some(m.(signingKey := seed)), Ok)
  }

  function Signing(v: Vault, m: Memory, message: Bytes): Effect {
    Effect([], Some(m), if m.signingKey.None? then Rejected else SignedWith(v.sign(m.signingKey.value, message)))
  }

  // --- the wallet object --------------------------------------------------------------

  class Wallet {
    var signingKey: Option<Bytes>
    var encrypted: Option<Document>
    const publicKey: string
    const vault: Vault
    /** The files at the wallet's path. */
    var disk: Disk
    /** What the disk has held after every call since the wallet was opened. */
    ghost var trail: seq<Disk>

    function View(): Memory
      reads this
    {
      Memory(signingKey, encrypted, publicKey)
    }

    constructor (vault: Vault, m: Memory, disk: Disk)
      ensures View() == m && this.vault == vault && this.disk == disk && trail == []
    {
      signingKey, encrypted, publicKey := m.signingKey, m.encrypted, m.publicKey;
      this.vault, this.disk, trail := vault, disk, [];
    }

    twostate predicate Performed(e: Effect, reply: Reply)
      reads this
    {
      && e.memory == Some(View()) && reply == e.reply
      && trail == old(trail) + e.disks
      && disk == if e.disks == [] then old(disk) else e.disks[|e.disks| - 1]
    }

    method SetPassphrase(passphrase: string, name: string, salt: Bytes, nonce: Bytes, faults: Faults)
      returns (reply: Reply)
      modifies this
      ensures Performed(SettingPassphrase(vault, old(disk), old(View()), passphrase, name, salt, nonce, faults), reply)
    {
      if |passphrase| < MIN_PASSPHRASE {
        return InvalidParams;
      }
      if signingKey.None? {
        return Rejected;
      }
      var key := vault.derive(passphrase, salt);
      if key.None? || faults.encoding {
        return Internal;
      }
      var document := Document(
        FORMAT_VERSION, ALGORITHM, NameFor(vault, name), publicKey, vault.base64(salt), vault.base64(nonce),
        vault.base64(vault.seal(key.value, nonce, signingKey.value)));
      var ok := Replace(vault.encode(document), faults);
      if !ok {
        return Internal;
      }
      encrypted := Some(document);
      return Ok;
    }

    /** Write beside the key file, then rename over it. */
    method Replace(bytes: Bytes, faults: Faults) returns (ok: bool)
      modifies this`disk, this`trail
      ensures var r := ReplacePrivate(old(disk), bytes, faults);
              ok == r.1 && trail == old(trail) + r.0 && disk == r.0[|r.0| - 1]
    {
      if disk.temporary.Some? && !faults.removal {
        disk := disk.(temporary := None);
      }
      trail := trail + [disk];
      var (written, done) := WritePrivate(disk.temporary, bytes, faults.writing);
      disk := disk.(temporary := written);
      trail := trail + [disk];
      if !done || faults.rename {
        return false;
      }
      disk := Disk(disk.temporary, None);
      trail := trail + [disk];
      ok := !faults.permissions;
    }

    method Lock() returns (reply: Reply)
      modifies this`signingKey
      ensures Performed(Locking(old(View())), reply)
    {
      if encrypted.None? {
        return InvalidParams;
      }
      signingKey := None;
      return Ok;
    }

    method Unlock(passphrase: string) returns (reply: Reply)
      modifies this`signingKey
      ensures Performed(Unlocking(vault, old(View()), passphrase), reply)
    {
      if signingKey.Some? {
        return Ok;
      }
      if encrypted.None? {
        return Internal;
      }
      var (seed, error) := Decrypt(vault, encrypted.value, passphrase);
      if seed.None? {
        return error;
      }
      if vault.publicKey(seed.value) != publicKey {
        return Internal;
      }
      signingKey := seed;
      return Ok;
    }

    method Sign(message: Bytes) returns (reply: Reply)
      ensures reply == Signing(vault, View(), message).reply
    {
      if signingKey.None? {
        return Rejected;
      }
      reply := SignedWith(vault.sign(signingKey.value, message));
    }
  }

  /** Open the wallet at a path, creating one if there is none. */
  method Open(vault: Vault, disk: Disk, seed: Bytes, faults: Faults) returns (wallet: Wallet?, after: Disk)
    ensures var e := LoadOrCreate(vault, disk, seed, faults);
            && after == (if e.disks == [] then disk else e.disks[|e.disks| - 1])
            && (wallet != null <==> e.memory.Some?)
            && (wallet != null ==>
                  fresh(wallet) && Some(wallet.View()) == e.memory && wallet.disk == after && wallet.vault == vault)
  {
    wallet, after := null, disk;
    if faults.directory {
      return;
    }
    if disk.key.Some? {
      if faults.read || faults.permissions {
        return;
      }
      var bytes := disk.key.value;
      if |bytes| == SEED_LEN {
        wallet := new Wallet(vault, Memory(Some(bytes), None, vault.publicKey(bytes)), disk);
        return;
      }
      var document := vault.decode(bytes);
      if document.None? || document.value.version != FORMAT_VERSION || document.value.algorithm != ALGORITHM {
        return;
      }
      wallet := new Wallet(vault, Memory(None, document, document.value.publicKey), disk);
      return;
    }
    var (written, ok) := WritePrivate(None, seed, faults.writing);
    after := disk.(key := written);
    if ok {
      wallet := new Wallet(vault, Memory(Some(seed), None, vault.publicKey(seed)), after);
    }
  }
}
