/**
  Where credentials are kept: `FileStorage` and `Auth::{with_storage, store_credentials,
  get_current_credential, clear_credentials}` in cli/src/auth.rs, over the keyring and the
  persisted file. Processes follow one another; the keyring and the file outlive them.
 */
module AuthStorage {
  import opened Wrappers
  import opened PersistedState
  import opened Keyring

  /** `seal` and `unseal`. */
  datatype Sealer<!Cred> = Sealer(seal: Cred -> string, unseal: string -> Option<Cred>)

  /** A credential, none, or a storage that could not be read. */
  datatype LastRead<Cred> = Known(value: Option<Cred>) | Failed

  /** `StorageWithLastRead`: the storage in use, whether the file is there to fall back to, and the cached value. */
  datatype Session<Cred> = Session(
    usesFile: bool,
    fallback: bool,
    entries: nat,
    cached: Option<Option<string>>,
    lastRead: LastRead<Cred>
  )

  /** What outlives a process, and the session of the current one, once it is opened. */
  datatype Machine<Cred> = Machine(ring: Ring, file: Content<Option<string>>, session: Option<Session<Cred>>)

  /** The surroundings of one operation. */
  datatype Luck = Luck(preferFile: bool, unreadable: set<nat>, ringFailsAt: Option<nat>, saves: WriteOutcome)

  function Unsealed<Cred>(sealer: Sealer<Cred>, text: Option<string>): Option<Cred> {
    if text.Some? then sealer.unseal(text.value) else None
  }

  function FromRing<Cred>(sealer: Sealer<Cred>, r: ReadResult): LastRead<Cred> {
    match r
    case NoEntry => Known(None)
    case Text(t) => Known(sealer.unseal(t))
    case Unreadable => Failed
  }

  /** `with_storage`, up to the operation. */
  function Opened<Cred>(sealer: Sealer<Cred>, m: Machine<Cred>, k: Luck): Machine<Cred> {
    if m.session.Some? then m
    else if k.preferFile || m.file != Missing then m.(session := Some(FileSession(sealer, m.file, 0)))
    else
      var read := FromRing(sealer, ReadFrom(m.ring, k.unreadable, 0));
      var n := Visited(m.ring, k.unreadable, 0);
      m.(session := Some(if read.Failed? then FileSession(sealer, m.file, n) else Session(false, true, n, None, read)))
  }

  function FileSession<Cred>(sealer: Sealer<Cred>, file: Content<Option<string>>, entries: nat): Session<Cred> {
    var text := Loaded(None, file, None);
    Session(true, false, entries, Some(text), Known(Unsealed(sealer, text)))
  }

  function FileStored<Cred>(m: Machine<Cred>, s: Session<Cred>, text: Option<string>, saves: WriteOutcome): Machine<Cred> {
    m.(file := Saved(m.file, text, saves), session := Some(s.(cached := Some(text))))
  }

  function Store<Cred>(sealer: Sealer<Cred>, step: nat, m0: Machine<Cred>, c: Cred, k: Luck): Machine<Cred>
    requires step > 0
  {
    var m := Opened(sealer, m0, k);
    var s := m.session.value;
    var text := sealer.seal(c);
    if s.usesFile then
      FileStored(m, s.(lastRead := Known(Some(c))), Some(text), k.saves)
    else
      var (ring, ok) := StoreFrom(m.ring, text, 0, step, k.ringFailsAt);
      var m1 := m.(ring := ring);
      var s1 := s.(entries := Max(s.entries, Attempted(text, 0, step, k.ringFailsAt)), lastRead := Known(Some(c)));
      if ok || !s.fallback then m1.(session := Some(s1))
      else FileStored(m1, s1.(usesFile := true, fallback := false), Some(text), k.saves)
  }

  function Clear<Cred>(sealer: Sealer<Cred>, m0: Machine<Cred>, k: Luck): (Machine<Cred>, bool) {
    var m := Opened(sealer, m0, k);
    var s := m.session.value;
    if s.usesFile then
      (FileStored(m, if k.saves.Written? then s.(lastRead := Known(None)) else s, None, k.saves), k.saves.Written?)
    else
      var n := Max(s.entries, Visited(m.ring, k.unreadable, 0));
      var (ring, ok) := ClearFrom(m.ring, 0, n, k.ringFailsAt);
      (m.(ring := ring,
          session := Some(if ok then s.(entries := 0, lastRead := Known(None)) else s.(entries := n))), ok)
  }

  function Current<Cred>(sealer: Sealer<Cred>, m0: Machine<Cred>, k: Luck): (Machine<Cred>, LastRead<Cred>) {
    var m := Opened(sealer, m0, k);
    (m, m.session.value.lastRead)
  }

  // ------------------------------------------------------------------------
  // The operations as they run.
  // ------------------------------------------------------------------------

  class Auth<!Cred(0)> {
    const sealer: Sealer<Cred>
    const keyring: KeyringStorage
    const files: Container<Option<string>>
    var isOpen: bool
    var usesFile: bool
    var fallback: bool
    var lastRead: LastRead<Cred>

    constructor (sealer: Sealer<Cred>, os: OsKeyring, file: DiskFile<Option<string>>, limit: nat)
      requires limit > MARKER_LENGTH
      ensures Valid() && Snapshot() == Machine(os.ring, file.content, None)
      ensures this.sealer == sealer && keyring.limit == limit && keyring.os == os && files.file == file
      ensures fresh(keyring) && fresh(files)
    {
      this.sealer := sealer;
      keyring := new KeyringStorage(os, limit);
      files := new Container(file, None);
      isOpen, usesFile, fallback, lastRead := false, false, false, Known(None);
    }

    ghost function Repr(): set<object> {
      {this, keyring, keyring.os, files, files.file}
    }

    ghost predicate Valid()
      reads Repr()
    {
      && keyring.Valid() && files.default_ == None
      && (!isOpen ==> keyring.entries == [] && files.state == None)
      && (isOpen && !usesFile ==> files.state == None)
      && (isOpen && usesFile ==> !fallback)
    }

    ghost function Snapshot(): Machine<Cred>
      reads Repr()
    {
      Machine(keyring.os.ring, files.file.content,
              if isOpen then Some(Session(usesFile, fallback, |keyring.entries|, files.state, lastRead)) else None)
    }

    method Open(k: Luck)
      requires Valid()
      modifies Repr()
      ensures Valid() && isOpen && Snapshot() == Opened(sealer, old(Snapshot()), k)
    {
      if isOpen {
        return;
      }
      var native := NoEntry;
      var viaFile := k.preferFile || files.file.content != Missing;
      if !viaFile {
        native := keyring.Read(k.unreadable);
        viaFile := native.Unreadable?;
      }
      if viaFile {
        var text := files.LoadOrGet();
        usesFile, fallback, lastRead := true, false, Known(Unsealed(sealer, text));
      } else {
        usesFile, fallback, lastRead := false, true, FromRing(sealer, native);
      }
      isOpen := true;
    }

    method StoreCredentials(c: Cred, k: Luck)
      requires Valid()
      modifies Repr()
      ensures Valid() && Snapshot() == Store(sealer, keyring.Step(), old(Snapshot()), c, k)
    {
      Open(k);
      var text := sealer.seal(c);
      if usesFile {
        var _ := files.Save(Some(text), k.saves);
      } else {
        var ok := keyring.Store(text, k.ringFailsAt);
        if !ok && fallback {
          fallback, usesFile := false, true;
          var _ := files.Save(Some(text), k.saves);
        }
      }
      lastRead := Known(Some(c));
    }

    method ClearCredentials(k: Luck) returns (ok: bool)
      requires Valid()
      modifies Repr()
      ensures Valid() && (Snapshot(), ok) == Clear(sealer, old(Snapshot()), k)
    {
      Open(k);
      if usesFile {
        ok := files.Save(None, k.saves);
      } else {
        ok := keyring.Clear(k.unreadable, k.ringFailsAt);
      }
      if ok {
        lastRead := Known(None);
      }
    }

    method GetCurrentCredential(k: Luck) returns (r: LastRead<Cred>)
      requires Valid()
      modifies Repr()
      ensures Valid() && (Snapshot(), r) == Current(sealer, old(Snapshot()), k)
    {
      Open(k);
      r := lastRead;
    }
  }
}
