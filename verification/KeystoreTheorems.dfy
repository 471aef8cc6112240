/** The wallet over every run of creating, loading, protecting, locking, unlocking, signing, restarting and crashing. */
module KeystoreTheorems {
  import opened ByteCodec
  import opened Wrappers
  import opened Keystore

  datatype Operation =
    | OpenWallet(seed: Bytes, faults: Faults)
    | Protect(passphrase: string, name: string, salt: Bytes, nonce: Bytes, faults: Faults)
    | LockIt | UnlockIt(passphrase: string) | SignIt(message: Bytes)

  /** An operation runs to its end, or the process dies after some of its file system calls. */
  datatype Step = Complete(op: Operation) | Crash(op: Operation, calls: nat) | Restart

  predicate Possible(s: Device, op: Operation) {
    match op
    case OpenWallet(seed, _) => s.memory.None? && |seed| == SEED_LEN
    case Protect(_, _, salt, nonce, _) => s.memory.Some? && |salt| == 16 && |nonce| == 12
    case _ => s.memory.Some?
  }

  function Perform(v: Vault, s: Device, op: Operation): Effect
    requires Possible(s, op)
  {
    match op
    case OpenWallet(seed, faults) => LoadOrCreate(v, s.disk, seed, faults)
    case Protect(passphrase, name, salt, nonce, faults) =>
      SettingPassphrase(v, s.disk, s.memory.value, passphrase, name, salt, nonce, faults)
    case LockIt => Locking(s.memory.value)
    case UnlockIt(passphrase) => Unlocking(v, s.memory.value, passphrase)
    case SignIt(message) => Signing(v, s.memory.value, message)
  }

  predicate Enabled(s: Device, step: Step) {
    step.Restart? || Possible(s, step.op)
  }

  /** The disk after the first `calls` calls. */
  function DiskAfter(d: Disk, disks: seq<Disk>, calls: nat): Disk {
    if calls == 0 || disks == [] then d else if calls <= |disks| then disks[calls - 1] else disks[|disks| - 1]
  }

  function After(v: Vault, s: Device, step: Step): Device
    requires Enabled(s, step)
  {
    match step
    case Restart => Device(s.disk, None)
    case Complete(op) => var e := Perform(v, s, op); Device(DiskAfter(s.disk, e.disks, |e.disks|), e.memory)
    case Crash(op, calls) => Device(DiskAfter(s.disk, Perform(v, s, op).disks, calls), None)
  }

  // --- the invariant ------------------------------------------------------------------

  /** A seed with this public key. */
  predicate HasKey(v: Vault, seed: Bytes, key: string) {
    |seed| == SEED_LEN && v.publicKey(seed) == key
  }

  /** The document is this wallet's, and some passphrase opens it to a seed with its public key. */
  ghost predicate Seals(v: Vault, d: Document, key: string) {
    Supported(d) && d.publicKey == key && exists passphrase :: OpensTo(v, d, passphrase, key)
  }

  ghost predicate OpensTo(v: Vault, d: Document, passphrase: string, key: string) {
    Decrypt(v, d, passphrase).0.Some? && HasKey(v, Decrypt(v, d, passphrase).0.value, key)
  }

  ghost predicate Sealed(v: Vault, bytes: Bytes, key: string) {
    exists d :: bytes == v.encode(d) && Seals(v, d, key)
  }

  ghost predicate MemorySound(v: Vault, m: Memory, key: string) {
    && m.publicKey == key
    && (m.signingKey.Some? ==> HasKey(v, m.signingKey.value, key))
    && (m.encrypted.Some? ==> Seals(v, m.encrypted.value, key))
    && (m.signingKey.None? ==> m.encrypted.Some?)
  }

  ghost predicate KeyFileSound(v: Vault, d: Disk, key: string) {
    d.key.Some? && (HasKey(v, d.key.value, key) || Sealed(v, d.key.value, key))
  }

  /** A created wallet: the key file is a raw seed with its public key or a document sealing one. */
  ghost predicate Sound(v: Vault, s: Device, key: string) {
    && KeyFileSound(v, s.disk, key)
    && (s.memory.Some? ==> MemorySound(v, s.memory.value, key)
                           && (s.memory.value.encrypted.Some? ==> Sealed(v, s.disk.key.value, key)))
  }

  predicate Blank(s: Device) {
    s.disk.key.None? && s.memory.None?
  }

  /** What a creation that was cut short leaves. */
  predicate Broken(s: Device) {
    s.disk.key.Some? && |s.disk.key.value| < SEED_LEN && s.memory.None?
  }

  // --- every step keeps it --------------------------------------------------------------

  lemma EncryptSeals(
    v: Vault, m: Memory, passphrase: string, name: string, secret: Bytes, salt: Bytes, nonce: Bytes, seed: Bytes)
    requires v.Lawful() && m.signingKey == Some(seed) && HasKey(v, seed, m.publicKey)
    requires v.derive(passphrase, salt) == Some(secret) && |salt| == 16 && |nonce| == 12
    ensures Decrypt(v, Encrypt(v, m, name, secret, salt, nonce), passphrase).0 == Some(seed)
    ensures Seals(v, Encrypt(v, m, name, secret, salt, nonce), m.publicKey)
  {
    hide NameFor;
    var d := Encrypt(v, m, name, secret, salt, nonce);
    assert v.fromBase64(d.salt) == Some(salt) && v.fromBase64(d.nonce) == Some(nonce);
    assert v.fromBase64(d.ciphertext) == Some(v.seal(secret, nonce, seed));
    assert v.unseal(secret, nonce, v.seal(secret, nonce, seed)) == Some(seed);
    assert Decrypt(v, d, passphrase).0 == Some(seed);
    assert OpensTo(v, d, passphrase, m.publicKey);
  }

  lemma SealedIsNoSeed(v: Vault, bytes: Bytes, key: string)
    requires v.Lawful() && Sealed(v, bytes, key)
    ensures |bytes| > SEED_LEN
    ensures exists d :: bytes == v.encode(d) && Seals(v, d, key) && v.decode(bytes) == Some(d)
  {
    var d :| bytes == v.encode(d) && Seals(v, d, key);
    assert v.decode(bytes) == Some(d);
  }

  /** Replacing the key file leaves the old bytes there, or exactly the new ones. */
  lemma ReplacedOrNot(d: Disk, bytes: Bytes, faults: Faults)
    ensures forall i :: 0 <= i < |ReplacePrivate(d, bytes, faults).0| ==>
              ReplacePrivate(d, bytes, faults).0[i].key in {d.key, Some(bytes)}
    ensures var r := ReplacePrivate(d, bytes, faults); r.1 ==> r.0[|r.0| - 1].key == Some(bytes)
  {
  }

  lemma ProtectKeeps(v: Vault, s: Device, op: Operation, key: string)
    requires v.Lawful() && Sound(v, s, key) && op.Protect? && Possible(s, op)
    ensures var e := Perform(v, s, op);
            && (forall i :: 0 <= i < |e.disks| ==>
                  && KeyFileSound(v, e.disks[i], key)
                  && (Sealed(v, s.disk.key.value, key) ==> Sealed(v, e.disks[i].key.value, key)))
            && e.memory.Some? && Sound(v, Device(DiskAfter(s.disk, e.disks, |e.disks|), e.memory), key)
  {
    var m := s.memory.value;
    if |op.passphrase| >= MIN_PASSPHRASE && m.signingKey.Some? && v.derive(op.passphrase, op.salt).Some?
      && !op.faults.encoding {
      var secret := v.derive(op.passphrase, op.salt).value;
      EncryptSeals(v, m, op.passphrase, op.name, secret, op.salt, op.nonce, m.signingKey.value);
      var d := Encrypt(v, m, op.name, secret, op.salt, op.nonce);
      assert Sealed(v, v.encode(d), key);
      ReplacedOrNot(s.disk, v.encode(d), op.faults);
      hide ReplacePrivate;
      hide Encrypt;
      hide Seals;
    }
  }

  lemma OpenKeeps(v: Vault, s: Device, op: Operation, key: string)
    requires v.Lawful() && Sound(v, s, key) && op.OpenWallet? && Possible(s, op)
    ensures var e := Perform(v, s, op);
            e.disks == [] && (e.memory.Some? ==> Sound(v, Device(s.disk, e.memory), key))
  {
    hide WritePrivate;
    if Sealed(v, s.disk.key.value, key) {
      SealedIsNoSeed(v, s.disk.key.value, key);
      hide Sealed;
    }
  }

  lemma UnlockKeeps(v: Vault, s: Device, passphrase: string, key: string)
    requires Sound(v, s, key) && s.memory.Some?
    ensures Sound(v, Device(s.disk, Unlocking(v, s.memory.value, passphrase).memory), key)
  {
    hide Decrypt;
    hide Seals;
    hide Sealed;
  }

  /** Every operation, and every crash inside one, keeps the wallet sound; sealed stays sealed. */
  lemma SoundKept(v: Vault, s: Device, step: Step, key: string)
    requires v.Lawful() && Sound(v, s, key) && Enabled(s, step)
    ensures Sound(v, After(v, s, step), key)
    ensures Sealed(v, s.disk.key.value, key) ==> Sealed(v, After(v, s, step).disk.key.value, key)
  {
    if !step.Restart? {
      match step.op
      case OpenWallet(_, _) => OpenKeeps(v, s, step.op, key);
      case Protect(_, _, _, _, _) => ProtectKeeps(v, s, step.op, key);
      case UnlockIt(passphrase) => UnlockKeeps(v, s, passphrase, key);
      case _ =>
    }
    hide SettingPassphrase;
    hide LoadOrCreate;
    hide Unlocking;
    hide Sealed;
    hide Seals;
    hide HasKey;
  }

  // --- every run ------------------------------------------------------------------------

  ghost predicate RunsTo(v: Vault, s: Device, steps: seq<Step>, end: Device)
    decreases |steps|
  {
    if steps == [] then end == s
    else Enabled(s, steps[0]) && RunsTo(v, After(v, s, steps[0]), steps[1..], end)
  }

  /**
   * Once created, a wallet keeps its public key for good: at every point of every run, crashes
   * included, the key file is a raw seed with that key or a document that some passphrase opens
   * to one; the key in memory has it too, and the wallet is protected whenever it is locked.
   * A key file that has been sealed stays sealed.
   */
  lemma {:induction false} OneKeyForGood(v: Vault, s: Device, steps: seq<Step>, end: Device, key: string)
    requires v.Lawful() && Sound(v, s, key) && RunsTo(v, s, steps, end)
    ensures Sound(v, end, key)
    ensures Sealed(v, s.disk.key.value, key) ==> Sealed(v, end.disk.key.value, key)
    decreases |steps|
  {
    if steps != [] {
      SoundKept(v, s, steps[0], key);
      hide After;
      hide Enabled;
      hide MemorySound;
      hide Sealed;
      OneKeyForGood(v, After(v, s, steps[0]), steps[1..], end, key);
    }
  }

  /** No other seed has this one's public key. */
  ghost predicate NoCollision(v: Vault, seed: Bytes) {
    |seed| == SEED_LEN && forall other: Bytes :: HasKey(v, other, v.publicKey(seed)) ==> other == seed
  }

  /** The seed is in the key file, raw or sealed, and no other one is in memory. */
  ghost predicate HoldsSeed(v: Vault, s: Device, seed: Bytes) {
    && s.disk.key.Some?
    && (|| s.disk.key.value == seed
        || exists d, passphrase :: s.disk.key.value == v.encode(d) && Decrypt(v, d, passphrase).0 == Some(seed))
    && (s.memory.Some? && s.memory.value.signingKey.Some? ==> s.memory.value.signingKey.value == seed)
  }

  /** For a seed that shares its public key with no other, the wallet keeps that seed for good. */
  lemma OneSeedForGood(v: Vault, s: Device, steps: seq<Step>, end: Device, seed: Bytes)
    requires v.Lawful() && NoCollision(v, seed) && Sound(v, s, v.publicKey(seed)) && RunsTo(v, s, steps, end)
    ensures HoldsSeed(v, end, seed)
  {
    var key := v.publicKey(seed);
    OneKeyForGood(v, s, steps, end, key);
    hide Decrypt;
    if Sealed(v, end.disk.key.value, key) {
      var d :| end.disk.key.value == v.encode(d) && Seals(v, d, key);
      var passphrase :| OpensTo(v, d, passphrase, key);
      assert Decrypt(v, d, passphrase).0 == Some(seed);
    }
  }

  /** Creation makes a wallet of the fresh seed, leaves nothing, or leaves a part of the seed. */
  lemma CreationOutcomes(v: Vault, s: Device, step: Step)
    requires v.Lawful() && Blank(s) && Enabled(s, step)
    ensures var t := After(v, s, step);
            || Blank(t)
            || (!step.Restart? && step.op.OpenWallet? && (Broken(t) || Sound(v, t, v.publicKey(step.op.seed))))
  {
    if !step.Restart? && step.op.OpenWallet? {
      var seed := step.op.seed;
      assert HasKey(v, seed, v.publicKey(seed));
      assert seed[..SEED_LEN] == seed;
    }
    hide Sealed;
    hide Seals;
  }

  /** A creation that left only a part of the seed is never recovered from: no later start opens a wallet. */
  lemma BrokenForGood(v: Vault, s: Device, step: Step)
    requires v.Lawful() && Broken(s) && Enabled(s, step)
    ensures Broken(After(v, s, step)) && After(v, s, step).disk.key == s.disk.key
  {
  }

  /**
   * Creation leaves such a file, whether the process dies or the error is returned, exactly
   * when the file was made and the write stopped before the end of the seed.
   */
  lemma BrokenExactlyWhen(v: Vault, s: Device, seed: Bytes, faults: Faults, calls: nat)
    requires v.Lawful() && Blank(s) && |seed| == SEED_LEN
    ensures Broken(After(v, s, Crash(OpenWallet(seed, faults), calls))) <==>
              calls > 0 && !faults.directory && faults.writing.StopsAfter? && faults.writing.n < SEED_LEN
    ensures Broken(After(v, s, Complete(OpenWallet(seed, faults)))) <==>
              !faults.directory && faults.writing.StopsAfter? && faults.writing.n < SEED_LEN
  {
  }

  ghost predicate Fate(v: Vault, s: Device) {
    Blank(s) || Broken(s) || exists key :: Sound(v, s, key)
  }

  /** Every run from an empty disk: no wallet yet, a broken creation, or one sound wallet. */
  lemma {:induction false} EveryRunIsSound(v: Vault, s: Device, steps: seq<Step>, end: Device)
    requires v.Lawful() && Fate(v, s) && RunsTo(v, s, steps, end)
    ensures Fate(v, end)
    decreases |steps|
  {
    if steps != [] {
      FateKept(v, s, steps[0]);
      hide After;
      hide Enabled;
      hide Fate;
      EveryRunIsSound(v, After(v, s, steps[0]), steps[1..], end);
    }
  }

  lemma FateKept(v: Vault, s: Device, step: Step)
    requires v.Lawful() && Fate(v, s) && Enabled(s, step)
    ensures Fate(v, After(v, s, step))
  {
    if Blank(s) {
      CreationOutcomes(v, s, step);
    } else if Broken(s) {
      BrokenForGood(v, s, step);
    } else {
      var key :| Sound(v, s, key);
      SoundKept(v, s, step, key);
    }
    hide After;
    hide Sound;
  }

  /** Signing works exactly while unlocked, and always with a key that has the wallet's public key. */
  lemma SignsOnlyUnlocked(v: Vault, s: Device, key: string, message: Bytes)
    requires Sound(v, s, key) && s.memory.Some?
    ensures var m, reply := s.memory.value, Perform(v, s, SignIt(message)).reply;
            if m.signingKey.None? then reply == Rejected && m.encrypted.Some?
            else HasKey(v, m.signingKey.value, key) && reply == SignedWith(v.sign(m.signingKey.value, message))
  {
    hide Sealed;
    hide Seals;
  }

  // --- the passphrase opens it again --------------------------------------------------------

  /** The key file is a document the passphrase opens to this seed, and memory holds that document. */
  ghost predicate OpensWith(v: Vault, s: Device, d: Document, seed: Bytes, passphrase: string) {
    && HasKey(v, seed, d.publicKey) && s.disk.key == Some(v.encode(d)) && Supported(d)
    && Decrypt(v, d, passphrase).0 == Some(seed)
    && (s.memory.Some? ==>
          var m := s.memory.value;
          && m.encrypted == Some(d) && m.publicKey == d.publicKey
          && (m.signingKey.Some? ==> HasKey(v, m.signingKey.value, d.publicKey)))
  }

  lemma ProtectOpens(v: Vault, s: Device, op: Operation, key: string)
    returns (d: Document)
    requires v.Lawful() && Sound(v, s, key) && op.Protect? && Possible(s, op) && Perform(v, s, op).reply == Ok
    ensures s.memory.value.signingKey.Some? && HasKey(v, s.memory.value.signingKey.value, key) && d.publicKey == key
    ensures OpensWith(v, After(v, s, Complete(op)), d, s.memory.value.signingKey.value, op.passphrase)
    ensures var t := After(v, s, Complete(op));
            && t.memory == Some(Memory(s.memory.value.signingKey, Some(d), key))
            && Locking(t.memory.value) == Effect([], Some(Memory(None, Some(d), key)), Ok)
  {
    var m := s.memory.value;
    var secret := v.derive(op.passphrase, op.salt).value;
    EncryptSeals(v, m, op.passphrase, op.name, secret, op.salt, op.nonce, m.signingKey.value);
    d := Encrypt(v, m, op.name, secret, op.salt, op.nonce);
    assert d.publicKey == m.publicKey && Supported(d);
    AfterProtect(v, s, op, secret);
    hide After;
    hide Encrypt;
    hide Decrypt;
    hide Sealed;
    hide Seals;
  }

  /** The step gets as far as renaming a new document over the key file. */
  predicate Renames(v: Vault, s: Device, step: Step)
    requires Enabled(s, step)
  {
    && !step.Restart? && step.op.Protect? && (step.Crash? ==> step.calls >= 3)
    && |step.op.passphrase| >= MIN_PASSPHRASE && s.memory.value.signingKey.Some?
    && v.derive(step.op.passphrase, step.op.salt).Some?
    && var faults := step.op.faults;
       && !faults.encoding && (s.disk.temporary.None? || !faults.removal) && faults.writing.Fine? && !faults.rename
  }

  /** Exactly then the key file of a created wallet becomes the new document; otherwise it stays as it is. */
  lemma ReplacedExactlyWhen(v: Vault, s: Device, step: Step)
    requires Enabled(s, step) && s.disk.key.Some?
    ensures After(v, s, step).disk.key ==
              if Renames(v, s, step)
              then
                var secret := v.derive(step.op.passphrase, step.op.salt).value;
                Some(v.encode(Encrypt(v, s.memory.value, step.op.name, secret, step.op.salt, step.op.nonce)))
              else s.disk.key
  {
    hide Encrypt;
  }

  lemma OpensStill(v: Vault, s: Device, step: Step, d: Document, seed: Bytes, passphrase: string)
    requires v.Lawful() && OpensWith(v, s, d, seed, passphrase) && Enabled(s, step) && !Renames(v, s, step)
    ensures OpensWith(v, After(v, s, step), d, seed, passphrase)
  {
    ReplacedExactlyWhen(v, s, step);
    assert v.decode(v.encode(d)) == Some(d) && |v.encode(d)| > SEED_LEN;
    hide Decrypt;
    hide WritePrivate;
    hide Encrypt;
  }

  /** A run in which no step renames a new document over the key file. */
  ghost predicate RunsWithoutRenaming(v: Vault, s: Device, steps: seq<Step>, end: Device)
    decreases |steps|
  {
    if steps == [] then end == s
    else
      && Enabled(s, steps[0]) && !Renames(v, s, steps[0])
      && RunsWithoutRenaming(v, After(v, s, steps[0]), steps[1..], end)
  }

  lemma {:induction false} OpensAlong(
    v: Vault, s: Device, steps: seq<Step>, end: Device, d: Document, seed: Bytes, passphrase: string)
    requires v.Lawful() && OpensWith(v, s, d, seed, passphrase) && RunsWithoutRenaming(v, s, steps, end)
    ensures OpensWith(v, end, d, seed, passphrase)
    decreases |steps|
  {
    if steps != [] {
      OpensStill(v, s, steps[0], d, seed, passphrase);
      hide After;
      hide Enabled;
      hide Renames;
      hide OpensWith;
      OpensAlong(v, After(v, s, steps[0]), steps[1..], end, d, seed, passphrase);
    }
  }

  /**
   * Giving the passphrase now brings a key with the wallet's public key back, opening the wallet
   * first if the daemon is not running; if none was in memory, it is the sealed one.
   */
  ghost predicate ComesBack(
    v: Vault, s: Device, d: Document, seed: Bytes, passphrase: string, spare: Bytes, faults: Faults)
  {
    var locked := Memory(None, Some(d), v.publicKey(seed));
    var unlocked := locked.(signingKey := Some(seed));
    if s.memory.None? then
      && LoadOrCreate(v, s.disk, spare, faults) == Effect([], Some(locked), Ok)
      && Unlocking(v, locked, passphrase) == Effect([], Some(unlocked), Ok)
    else
      var e := Unlocking(v, s.memory.value, passphrase);
      && e.reply == Ok && e.disks == [] && e.memory.Some? && e.memory.value.signingKey.Some?
      && HasKey(v, e.memory.value.signingKey.value, v.publicKey(seed))
      && e.memory == Some(if s.memory.value.signingKey.None? then unlocked else s.memory.value)
  }

  /**
   * After a passphrase has been set, and whatever happens then short of another document being
   * renamed over the key file, crashes, restarts, wrong passphrases and failed attempts to set
   * another one included, giving it brings the key back.
   */
  lemma PassphraseOpens(
    v: Vault, s: Device, op: Operation, key: string, steps: seq<Step>, end: Device, spare: Bytes, faults: Faults)
    requires v.Lawful() && Sound(v, s, key) && op.Protect? && Possible(s, op) && Perform(v, s, op).reply == Ok
    requires RunsWithoutRenaming(v, After(v, s, Complete(op)), steps, end)
    requires !faults.directory && !faults.read && !faults.permissions
    ensures s.memory.value.signingKey.Some?
    ensures var seed := s.memory.value.signingKey.value;
            HasKey(v, seed, key) && exists d :: ComesBack(v, end, d, seed, op.passphrase, spare, faults)
  {
    var d := ProtectOpens(v, s, op, key);
    var seed := s.memory.value.signingKey.value;
    hide *;
    OpensAlong(v, After(v, s, Complete(op)), steps, end, d, seed, op.passphrase);
    BackFromAnywhere(v, end, d, seed, op.passphrase, spare, faults);
  }

  lemma BackFromAnywhere(
    v: Vault, s: Device, d: Document, seed: Bytes, passphrase: string, spare: Bytes, faults: Faults)
    requires v.Lawful() && OpensWith(v, s, d, seed, passphrase)
    requires !faults.directory && !faults.read && !faults.permissions
    ensures ComesBack(v, s, d, seed, passphrase, spare, faults)
  {
    assert v.decode(v.encode(d)) == Some(d) && |v.encode(d)| > SEED_LEN;
    UnlocksTo(v, d, passphrase, seed);
    if s.memory.None? {
      LoadsLocked(v, s.disk, d, spare, faults);
    }
    hide LoadOrCreate;
    hide Decrypt;
  }

  lemma AfterProtect(v: Vault, s: Device, op: Operation, secret: Bytes)
    requires op.Protect? && Possible(s, op) && Perform(v, s, op).reply == Ok
    requires v.derive(op.passphrase, op.salt) == Some(secret)
    ensures var m := s.memory.value;
            m.signingKey.Some?
            && var d := Encrypt(v, m, op.name, secret, op.salt, op.nonce);
               && After(v, s, Complete(op)).memory == Some(m.(encrypted := Some(d)))
               && After(v, s, Complete(op)).disk.key == Some(v.encode(d))
  {
    hide Encrypt;
    if s.memory.value.signingKey.Some? {
      ReplacedOrNot(s.disk, v.encode(Encrypt(v, s.memory.value, op.name, secret, op.salt, op.nonce)), op.faults);
    }
    hide ReplacePrivate;
  }

  lemma LoadsLocked(v: Vault, disk: Disk, d: Document, seed: Bytes, faults: Faults)
    requires disk.key == Some(v.encode(d)) && v.decode(v.encode(d)) == Some(d) && |v.encode(d)| > SEED_LEN
             && Supported(d)
    requires !faults.directory && !faults.read && !faults.permissions
    ensures LoadOrCreate(v, disk, seed, faults) == Effect([], Some(Memory(None, Some(d), d.publicKey)), Ok)
  {
  }

  lemma UnlocksTo(v: Vault, d: Document, passphrase: string, seed: Bytes)
    requires Decrypt(v, d, passphrase).0 == Some(seed) && v.publicKey(seed) == d.publicKey
    ensures Unlocking(v, Memory(None, Some(d), d.publicKey), passphrase)
         == Effect([], Some(Memory(Some(seed), Some(d), d.publicKey)), Ok)
  {
    hide Decrypt;
  }

  /**
   * A failed `set_passphrase` has still replaced the key file exactly when everything up to
   * the rename worked and only fixing the permissions failed. The wallet in memory does not
   * know: one without a document goes on refusing to lock until the next start.
   */
  lemma FailedYetReplaced(v: Vault, s: Device, op: Operation, key: string)
    requires v.Lawful() && Sound(v, s, key) && op.Protect? && Possible(s, op) && Perform(v, s, op).reply != Ok
    requires v.derive(op.passphrase, op.salt).Some? && s.memory.value.signingKey.Some?
    requires var m := s.memory.value;
             var secret := v.derive(op.passphrase, op.salt).value;
             s.disk.key != Some(v.encode(Encrypt(v, m, op.name, secret, op.salt, op.nonce)))
    ensures var t := After(v, s, Complete(op));
            && t.memory == s.memory
            && (t.disk.key != s.disk.key <==>
                  && |op.passphrase| >= MIN_PASSPHRASE && !op.faults.encoding
                  && (s.disk.temporary.None? || !op.faults.removal) && op.faults.writing.Fine?
                  && !op.faults.rename && op.faults.permissions)
            && (s.memory.value.encrypted.None? ==> Locking(t.memory.value).reply == InvalidParams)
  {
    hide Encrypt;
  }
}
